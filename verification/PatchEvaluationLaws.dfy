/** What the records and the published status of a patch-evaluation run mean. */
module PatchEvaluationLaws {
  import opened Wrappers
  import opened PatchEvaluation

  // ----- the records of the command loop -----

  /** The command ran to an end between two intact workspaces, and the record says how it ended. */
  predicate RanAs(c: CommandScript, fingerprint: string, command: string, r: Record) {
    && !c.expired && c.preflight == Done(fingerprint) && c.readback == Done(fingerprint)
    && c.run.Done? && c.run.value.ready && r.command == command
    && (r.status == Passed <==> !c.run.value.timedOut && c.run.value.code == 0)
    && (r.status == FailedStatus <==> !c.run.value.timedOut && c.run.value.code != 0)
    && (r.status == Timeout <==> c.run.value.timedOut)
    && r.exitCode == (if c.run.value.timedOut then None else Some(c.run.value.code))
  }

  /** The command is an error: the workspace was not intact around it, or its payload never started. */
  predicate IsFault(c: CommandScript, fingerprint: string) {
    && !c.expired
    && ((c.preflight != Done(fingerprint) && c.preflight != Crashed)
        || (&& c.preflight == Done(fingerprint) && c.run.Done? && c.readback != Crashed
            && (c.readback != Done(fingerprint) || !c.run.value.ready)))
  }

  /** The command raises an exception, in its run or in one of the looks at the workspace. */
  predicate IsBroken(c: CommandScript, fingerprint: string, end: Reply<()>) {
    && !c.expired
    && ((c.preflight == Crashed && end == Crashed)
        || (&& c.preflight == Done(fingerprint)
            && ((c.run == Failed && end == Failed)
                || (c.run == Crashed && end == Crashed)
                || (c.run.Done? && c.readback == Crashed && end == Crashed))))
  }

  /** The first commands' records, when those commands ran. */
  predicate HaveRun(commands: seq<string>, script: seq<CommandScript>, fingerprint: string, records: seq<Record>) {
    && |records| <= |commands| == |script|
    && forall i :: 0 <= i < |records| ==> RanAs(script[i], fingerprint, commands[i], records[i])
  }

  predicate AreSkipped(commands: seq<string>, records: seq<Record>, k: nat) {
    && |records| == |commands|
    && forall i :: k <= i < |records| ==> records[i] == Record(commands[i], Skipped, None)
  }

  predicate PassedSoFar(failFast: bool, records: seq<Record>, k: nat) {
    failFast ==> forall i :: 0 <= i < k && i < |records| ==> records[i].status == Passed
  }

  /** How a loop ended; a fault also sets the infrastructure-error flag. */
  datatype Finish = Complete | Deadline | FailingFast | Fault | Broken(end: Reply<()>)

  /** What was found at command `k`, those before it having run. */
  predicate FinishesAt(commands: seq<string>, script: seq<CommandScript>, failFast: bool, fingerprint: string,
                       records: seq<Record>, finish: Finish, k: nat)
    requires |commands| == |script| && k <= |commands| && k <= |records|
  {
    match finish
    case Complete => k == |commands| == |records| && PassedSoFar(failFast, records, k)
    case Deadline =>
      k < |commands| && script[k].expired && PassedSoFar(failFast, records, k) && AreSkipped(commands, records, k)
    case FailingFast =>
      && k > 0 && failFast && PassedSoFar(true, records, k - 1) && records[k - 1].status != Passed
      && AreSkipped(commands, records, k)
    case Fault =>
      && k < |commands| && k < |records| && IsFault(script[k], fingerprint) && PassedSoFar(failFast, records, k)
      && records[k] == Record(commands[k], Error, None) && AreSkipped(commands, records, k + 1)
    case Broken(end) =>
      && k < |commands| && k == |records| && PassedSoFar(failFast, records, k)
      && IsBroken(script[k], fingerprint, end)
  }

  /**
   What a loop leaves behind, `k` commands having run: all of them, or those before the deadline,
   before a fault, before an exception, or up to one that did not pass when failing fast.  Unless an
   exception ended it, there is a record for each command, those not run being skipped.
   */
  ghost predicate HasShape(commands: seq<string>, script: seq<CommandScript>, failFast: bool, fingerprint: string,
                           records: seq<Record>, finish: Finish, k: nat)
    requires |commands| == |script|
  {
    && k <= |commands| && k <= |records| && HaveRun(commands, script, fingerprint, records[..k])
    && FinishesAt(commands, script, failFast, fingerprint, records, finish, k)
  }

  /** The end and the flag that go with it. */
  predicate EndsAs(before: State, r: Step, finish: Finish) {
    && r.end == (if finish.Broken? then finish.end else Done(()))
    && r.st.infrastructureError == (before.infrastructureError || finish == Fault)
  }

  lemma RunRecordSays(c: CommandScript, fingerprint: string, command: string)
    requires !c.expired && c.preflight == Done(fingerprint) && c.readback == Done(fingerprint)
    requires c.run.Done? && c.run.value.ready
    ensures RanAs(c, fingerprint, command, RunRecord(command, c.run.value))
  {}

  /** What one turn finds. */
  datatype Found = Late | Wrong | Raised(end: Reply<()>) | Ran(record: Record)

  predicate IsFound(c: CommandScript, fingerprint: string, command: string, found: Found) {
    match found
    case Late => c.expired
    case Wrong => IsFault(c, fingerprint)
    case Raised(end) => IsBroken(c, fingerprint, end)
    case Ran(record) => RanAs(c, fingerprint, command, record)
  }

  /** What the loop does about it. */
  function TurnOf(st: State, commands: seq<string>, failFast: bool, found: Found): Turn
    requires commands != []
  {
    match found
    case Late => Stop(Step(st.Append(SkippedRecords(commands)), Done(())))
    case Wrong => StopAt(st.Mark(), Record(commands[0], Error, None), commands)
    case Raised(end) => Stop(Step(st, end))
    case Ran(record) =>
      if failFast && record.status != Passed then StopAt(st, record, commands) else Go(st.Append([record]))
  }

  lemma TurnIs(st: State, commands: seq<string>, c: CommandScript, failFast: bool, fingerprint: string)
      returns (found: Found)
    requires commands != [] && st.fingerprint == Some(fingerprint)
    ensures IsFound(c, fingerprint, commands[0], found)
    ensures RunCommand(st, commands, c, failFast) == TurnOf(st, commands, failFast, found)
  {
    if c.expired {
      found := Late;
    } else if c.preflight == Crashed {
      found := Raised(Crashed);
    } else if c.preflight != Done(fingerprint) {
      found := Wrong;
    } else if c.run == Failed {
      found := Raised(Failed);
    } else if c.run == Crashed || c.readback == Crashed {
      found := Raised(Crashed);
    } else if c.readback != Done(fingerprint) || !c.run.value.ready {
      found := Wrong;
    } else {
      RunRecordSays(c, fingerprint, commands[0]);
      found := Ran(RunRecord(commands[0], c.run.value));
    }
  }

  lemma SkippedAfter(commands: seq<string>, ran: seq<Record>)
    requires |ran| <= |commands|
    ensures AreSkipped(commands, ran + SkippedRecords(commands[|ran|..]), |ran|)
    ensures (ran + SkippedRecords(commands[|ran|..]))[..|ran|] == ran
  {}

  lemma StoppedAfter(commands: seq<string>, ran: seq<Record>, record: Record)
    requires |ran| < |commands|
    ensures var records := ran + ([record] + SkippedRecords(commands[|ran|..][1..]));
            && AreSkipped(commands, records, |ran| + 1) && records[..|ran|] == ran && records[|ran|] == record
            && records[..|ran| + 1] == ran + [record]
  {
    assert commands[|ran|..][1..] == commands[|ran| + 1..];
    SkippedAfter(commands, ran + [record]);
    assert ran + ([record] + SkippedRecords(commands[|ran| + 1..]))
        == (ran + [record]) + SkippedRecords(commands[|ran| + 1..]);
  }

  lemma LateHasShape(st: State, commands: seq<string>, script: seq<CommandScript>, failFast: bool, fingerprint: string)
    requires IsUnderway(st, commands, script, failFast, fingerprint) && |st.records| < |commands|
    requires script[|st.records|].expired
    ensures LoopFits(st, commands, script, failFast, fingerprint,
                     TurnOf(st, commands[|st.records|..], failFast, Late).last, Deadline, |st.records|)
  {
    SkippedAfter(commands, st.records);
  }

  lemma WrongHasShape(st: State, commands: seq<string>, script: seq<CommandScript>, failFast: bool, fingerprint: string)
    requires IsUnderway(st, commands, script, failFast, fingerprint) && |st.records| < |commands|
    requires IsFault(script[|st.records|], fingerprint)
    ensures LoopFits(st, commands, script, failFast, fingerprint,
                     TurnOf(st, commands[|st.records|..], failFast, Wrong).last, Fault, |st.records|)
  {
    StoppedAfter(commands, st.records, Record(commands[|st.records|], Error, None));
  }

  lemma FastStopHasShape(st: State, commands: seq<string>, script: seq<CommandScript>, fingerprint: string,
                         last: Record)
    requires IsUnderway(st, commands, script, true, fingerprint) && |st.records| < |commands|
    requires RanAs(script[|st.records|], fingerprint, commands[|st.records|], last) && last.status != Passed
    ensures LoopFits(st, commands, script, true, fingerprint,
                     TurnOf(st, commands[|st.records|..], true, Ran(last)).last, FailingFast, |st.records| + 1)
  {
    StoppedAfter(commands, st.records, last);
    RanOneMore(commands, script, fingerprint, st.records, last);
  }

  lemma RaisedHasShape(st: State, commands: seq<string>, script: seq<CommandScript>, failFast: bool,
                       fingerprint: string, end: Reply<()>)
    requires IsUnderway(st, commands, script, failFast, fingerprint) && |st.records| < |commands|
    requires IsBroken(script[|st.records|], fingerprint, end)
    ensures LoopFits(st, commands, script, failFast, fingerprint,
                     TurnOf(st, commands[|st.records|..], failFast, Raised(end)).last, Broken(end), |st.records|)
  {
    assert st.records[..|st.records|] == st.records;
  }

  /** A turn that ends the loop after the commands of `st.records`. */
  lemma StopHasShape(st: State, commands: seq<string>, script: seq<CommandScript>, failFast: bool,
                     fingerprint: string, found: Found) returns (finish: Finish, k: nat)
    requires IsUnderway(st, commands, script, failFast, fingerprint) && |st.records| < |commands|
    requires IsFound(script[|st.records|], fingerprint, commands[|st.records|], found)
    requires found.Ran? ==> failFast && found.record.status != Passed
    ensures TurnOf(st, commands[|st.records|..], failFast, found).Stop?
    ensures LoopFits(st, commands, script, failFast, fingerprint,
                     TurnOf(st, commands[|st.records|..], failFast, found).last, finish, k)
  {
    k := |st.records|;
    match found
    case Late =>
      finish := Deadline;
      LateHasShape(st, commands, script, failFast, fingerprint);
    case Wrong =>
      finish := Fault;
      WrongHasShape(st, commands, script, failFast, fingerprint);
    case Raised(end) =>
      finish := Broken(end);
      RaisedHasShape(st, commands, script, failFast, fingerprint, end);
    case Ran(record) =>
      finish, k := FailingFast, k + 1;
      FastStopHasShape(st, commands, script, fingerprint, record);
  }

  /** The records and the ending of a loop that started in `before`. */
  ghost predicate LoopFits(before: State, commands: seq<string>, script: seq<CommandScript>, failFast: bool,
                           fingerprint: string, r: Step, finish: Finish, k: nat)
    requires |commands| == |script|
  {
    HasShape(commands, script, failFast, fingerprint, r.st.records, finish, k) && EndsAs(before, r, finish)
  }

  function LoopFrom(st: State, commands: seq<string>, script: seq<CommandScript>, failFast: bool, i: nat): Step
    requires i <= |commands| == |script|
  {
    RunCommands(st, commands[i..], script[i..], failFast)
  }

  lemma RanOneMore(commands: seq<string>, script: seq<CommandScript>, fingerprint: string, ran: seq<Record>,
                   record: Record)
    requires HaveRun(commands, script, fingerprint, ran) && |ran| < |commands|
    requires RanAs(script[|ran|], fingerprint, commands[|ran|], record)
    ensures HaveRun(commands, script, fingerprint, ran + [record])
  {}

  /** The loop at position `i` of its commands, in terms of the position. */
  lemma LoopAt(st: State, commands: seq<string>, script: seq<CommandScript>, failFast: bool, fingerprint: string,
               i: nat)
      returns (found: Found)
    requires i < |commands| == |script| && st.fingerprint == Some(fingerprint)
    ensures IsFound(script[i], fingerprint, commands[i], found)
    ensures LoopFrom(st, commands, script, failFast, i) ==
            match TurnOf(st, commands[i..], failFast, found)
            case Stop(last) => last
            case Go(next) => LoopFrom(next, commands, script, failFast, i + 1)
  {
    found := TurnIs(st, commands[i..], script[i], failFast, fingerprint);
    assert commands[i..][1..] == commands[i + 1..] && script[i..][1..] == script[i + 1..];
  }

  /** `st.records` stand for the commands that have run, none of them a reason to stop. */
  ghost predicate IsUnderway(st: State, commands: seq<string>, script: seq<CommandScript>, failFast: bool,
                             fingerprint: string) {
    && HaveRun(commands, script, fingerprint, st.records) && PassedSoFar(failFast, st.records, |st.records|)
    && st.fingerprint == Some(fingerprint)
  }

  lemma StaysUnderway(st: State, commands: seq<string>, script: seq<CommandScript>, failFast: bool,
                      fingerprint: string, record: Record)
    requires IsUnderway(st, commands, script, failFast, fingerprint) && |st.records| < |commands|
    requires RanAs(script[|st.records|], fingerprint, commands[|st.records|], record)
    requires failFast ==> record.status == Passed
    ensures IsUnderway(st.Append([record]), commands, script, failFast, fingerprint)
  {
    RanOneMore(commands, script, fingerprint, st.records, record);
  }

  lemma FitsFromNext(st: State, record: Record, commands: seq<string>, script: seq<CommandScript>, failFast: bool,
                     fingerprint: string, r: Step, finish: Finish, k: nat)
    requires |commands| == |script|
    requires LoopFits(st.Append([record]), commands, script, failFast, fingerprint, r, finish, k)
    ensures LoopFits(st, commands, script, failFast, fingerprint, r, finish, k)
  {}

  lemma CompleteHasShape(st: State, commands: seq<string>, script: seq<CommandScript>, failFast: bool,
                         fingerprint: string)
    requires IsUnderway(st, commands, script, failFast, fingerprint) && |st.records| == |commands|
    ensures LoopFits(st, commands, script, failFast, fingerprint,
                     LoopFrom(st, commands, script, failFast, |st.records|), Complete, |st.records|)
  {
    assert st.records[..|st.records|] == st.records;
    assert commands[|st.records|..] == [];
  }

  /** Continuing after `st.records`. */
  lemma {:induction false} LoopHasShape(st: State, commands: seq<string>, script: seq<CommandScript>, failFast: bool,
                                        fingerprint: string) returns (finish: Finish, k: nat)
    requires IsUnderway(st, commands, script, failFast, fingerprint)
    ensures LoopFits(st, commands, script, failFast, fingerprint,
                     LoopFrom(st, commands, script, failFast, |st.records|), finish, k)
    decreases |commands| - |st.records|
  {
    var i := |st.records|;
    if i < |commands| {
      var found := LoopAt(st, commands, script, failFast, fingerprint, i);
      if found.Ran? && (failFast ==> found.record.status == Passed) {
        var next := st.Append([found.record]);
        StaysUnderway(st, commands, script, failFast, fingerprint, found.record);
        finish, k := LoopHasShape(next, commands, script, failFast, fingerprint);
        FitsFromNext(st, found.record, commands, script, failFast, fingerprint,
                     LoopFrom(next, commands, script, failFast, i + 1), finish, k);
      } else {
        finish, k := StopHasShape(st, commands, script, failFast, fingerprint, found);
      }
    } else {
      finish, k := Complete, i;
      CompleteHasShape(st, commands, script, failFast, fingerprint);
    }
  }

  // ----- when every record passes -----

  predicate AllPassed(records: seq<Record>) {
    forall r <- records :: r.status == Passed
  }

  /** Nothing went wrong with this command: in time, passed, and the workspace as before on both sides. */
  predicate IsFlawlessCommand(c: CommandScript, fingerprint: string) {
    && !c.expired
    && c.preflight == Done(fingerprint)
    && c.run.Done? && c.run.value.ready && !c.run.value.timedOut && c.run.value.code == 0
    && c.readback == Done(fingerprint)
  }

  predicate LoopIsClean(r: Step) {
    r.end.Done? && !r.st.infrastructureError && AllPassed(r.st.records)
  }

  lemma AllPassedOfBoth(a: seq<Record>, b: seq<Record>)
    ensures AllPassed(a + b) <==> AllPassed(a) && AllPassed(b)
  {
    if AllPassed(a + b) {
      forall r <- a ensures r.status == Passed { assert r in a + b; }
      forall r <- b ensures r.status == Passed { assert r in a + b; }
    }
  }

  lemma EndIsNotPassed(ran: seq<Record>, rest: seq<Record>)
    requires rest != [] && rest[0].status != Passed
    ensures !AllPassed(ran + rest)
  {
    AllPassedOfBoth(ran, rest);
    assert rest[0] in rest;
  }

  lemma FlawlessIff(c: CommandScript, fingerprint: string, command: string, found: Found)
    requires IsFound(c, fingerprint, command, found)
    ensures IsFlawlessCommand(c, fingerprint) <==> found.Ran? && found.record.status == Passed
    ensures found.Raised? ==> !found.end.Done?
  {}

  lemma TurnOfIsCleanIff(st: State, commands: seq<string>, failFast: bool, found: Found)
    requires commands != [] && (found.Raised? ==> !found.end.Done?)
    ensures match TurnOf(st, commands, failFast, found)
            case Stop(last) => !LoopIsClean(last) && !(found.Ran? && found.record.status == Passed)
            case Go(next) =>
              && found.Ran? && next.fingerprint == st.fingerprint
              && next.infrastructureError == st.infrastructureError
              && (AllPassed(next.records) <==> AllPassed(st.records) && found.record.status == Passed)
  {
    match found
    case Late => EndIsNotPassed(st.records, SkippedRecords(commands));
    case Wrong => EndIsNotPassed(st.records, [Record(commands[0], Error, None)] + SkippedRecords(commands[1..]));
    case Raised(_) =>
    case Ran(record) =>
      if record.status != Passed { EndIsNotPassed(st.records, [record] + SkippedRecords(commands[1..])); }
      AllPassedOfBoth(st.records, [record]);
      assert AllPassed([record]) <==> record.status == Passed by { assert [record][0] == record; }
  }

  lemma TurnIsCleanIff(st: State, commands: seq<string>, c: CommandScript, failFast: bool, fingerprint: string)
    requires commands != [] && st.fingerprint == Some(fingerprint)
    ensures match RunCommand(st, commands, c, failFast)
            case Stop(last) => !LoopIsClean(last) && !IsFlawlessCommand(c, fingerprint)
            case Go(next) =>
              && next.fingerprint == st.fingerprint && next.infrastructureError == st.infrastructureError
              && (AllPassed(next.records) <==> AllPassed(st.records) && IsFlawlessCommand(c, fingerprint))
  {
    var found := TurnIs(st, commands, c, failFast, fingerprint);
    FlawlessIff(c, fingerprint, commands[0], found);
    TurnOfIsCleanIff(st, commands, failFast, found);
  }

  lemma {:induction false} LoopIsCleanIff(st: State, commands: seq<string>, script: seq<CommandScript>, failFast: bool,
                                          fingerprint: string)
    requires |commands| == |script| && st.fingerprint == Some(fingerprint)
    ensures LoopIsClean(RunCommands(st, commands, script, failFast)) <==>
            && !st.infrastructureError && AllPassed(st.records)
            && (forall c <- script :: IsFlawlessCommand(c, fingerprint))
    decreases commands
  {
    if commands != [] {
      assert script == [script[0]] + script[1..];
      TurnIsCleanIff(st, commands, script[0], failFast, fingerprint);
      match RunCommand(st, commands, script[0], failFast)
      case Stop(_) =>
      case Go(next) => LoopIsCleanIff(next, commands[1..], script[1..], failFast, fingerprint);
    }
  }

  // ----- when the published status is a pass -----

  lemma RollsUpToPassed(records: seq<Record>, applied: bool, infrastructureError: bool)
    ensures RollUp(records, applied, infrastructureError) == RolledPassed <==>
            applied && !infrastructureError && records != [] && AllPassed(records)
  {
    if records != [] && AllPassed(records) {
      assert records[0] in records;
    }
    if !AllPassed(records) {
      var r :| r in records && r.status != Passed;
      assert HasStatus(records, r.status);
    }
  }

  /** Every step before the commands answered as it should. */
  predicate IsPrepared(script: Script) {
    && script.makeRuntime.Done? && script.snapshotPatch.Done? && script.makeWorkspace.Done?
    && script.fillWorkspace.Done? && script.isIsolated == Done(true)
    && script.checkPatch == Done(true) && script.applyPatch == Done(true)
    && script.changedFiles.Done? && script.fingerprint.Done?
  }

  /** Workspace, snapshot and runtime directory are gone; source and producer are what they were. */
  predicate IsCleanedUp(script: Script) {
    && script.removeWorkspace.Done? && script.workspaceExists == Done(false)
    && script.removeSnapshot != Crashed && script.snapshotExists == Done(false)
    && script.removeRuntime != Crashed && script.runtimeExists == Done(false)
    && script.sourceUnchanged == Done(true) && script.producerUnchanged == Done(true)
  }

  predicate IsFlawless(request: Request, script: Script) {
    && IsPrepared(script)
    && request.commands != [] && script.makeLogs.Done?
    && (forall c <- script.commands :: IsFlawlessCommand(c, script.fingerprint.value))
    && IsCleanedUp(script)
    && script.buildArtifact.Done? && script.linked
  }

  predicate IsClean(r: Step) {
    r.end.Done? && !r.st.infrastructureError
  }

  /** A cleanup step leaves the results alone and never takes the error flag back. */
  predicate KeepsResults(before: State, after: Step) {
    && after.st.records == before.records && after.st.applied == before.applied
    && after.st.isolated == before.isolated && after.st.snapshot == before.snapshot
    && (before.infrastructureError ==> after.st.infrastructureError)
    && !after.end.Failed?
  }

  lemma CleanPathIsCleanIff(st: State, removed: Reply<()>, stillThere: Reply<bool>)
    ensures KeepsResults(st, CleanPath(st, removed, stillThere))
    ensures IsClean(CleanPath(st, removed, stillThere)) <==>
            !st.infrastructureError && removed != Crashed && stillThere == Done(false)
  {
  }

  lemma CleanWorkspaceIsCleanIff(st: State, removed: Reply<()>, stillThere: Reply<bool>)
    ensures KeepsResults(st, CleanWorkspace(st, removed, stillThere))
    ensures IsClean(CleanWorkspace(st, removed, stillThere)) <==>
            !st.infrastructureError && removed.Done? && stillThere == Done(false)
  {
  }

  lemma VerifyingIsCleanIff(st: State, same: Reply<bool>)
    ensures KeepsResults(st, VerifySource(st, same)) && KeepsResults(st, VerifyProducer(st, same))
    ensures IsClean(VerifySource(st, same)) <==> !st.infrastructureError && same == Done(true)
    ensures IsClean(VerifyProducer(st, same)) <==> !st.infrastructureError && same == Done(true)
  {
  }

  /** Cleaning up keeps the results, and stays clean exactly when every part of it does. */
  lemma CleanUpIsCleanIff(st: State, script: Script)
    ensures KeepsResults(st, CleanUp(st, script))
    ensures st.snapshot ==> (IsClean(CleanUp(st, script)) <==> !st.infrastructureError && IsCleanedUp(script))
  {
    var w := CleanWorkspace(st, script.removeWorkspace, script.workspaceExists);
    CleanWorkspaceIsCleanIff(st, script.removeWorkspace, script.workspaceExists);
    var p := CleanSnapshot(w.st, script.removeSnapshot, script.snapshotExists);
    CleanPathIsCleanIff(w.st, script.removeSnapshot, script.snapshotExists);
    var r := CleanPath(p.st, script.removeRuntime, script.runtimeExists);
    CleanPathIsCleanIff(p.st, script.removeRuntime, script.runtimeExists);
    VerifyingIsCleanIff(r.st, script.sourceUnchanged);
    VerifyingIsCleanIff(VerifySource(r.st, script.sourceUnchanged).st, script.producerUnchanged);
  }

  function Quietly<T>(r: Reply<T>): Reply<()> {
    match r
    case Done(_) => Done(())
    case Failed => Failed
    case Crashed => Crashed
  }

  /** An answer of no counts as a failure. */
  function Must(r: Reply<bool>): Reply<()> { if r.Done? && !r.value then Failed else Quietly(r) }

  /** The steps before the commands, in order. */
  function SetupSteps(request: Request, script: Script): seq<Reply<()>> {
    [script.makeRuntime, script.snapshotPatch, script.makeWorkspace, script.fillWorkspace, Must(script.isIsolated),
     Must(script.checkPatch), Must(script.applyPatch), script.changedFiles, Quietly(script.fingerprint),
     if request.commands == [] then Done(()) else script.makeLogs]
  }

  /** The state after the first `n` steps. */
  function AfterSteps(script: Script, n: nat): State {
    State(n >= 2, n >= 5, n >= 7, if n >= 9 && script.fingerprint.Done? then Some(script.fingerprint.value) else None,
          [], false, n >= 3, false, false)
  }

  /** The performance ends at the first step that is not done, or else with the commands. */
  lemma SetupIs(request: Request, script: Script) returns (n: nat)
    requires |request.commands| == |script.commands|
    ensures var steps := SetupSteps(request, script);
            && n <= |steps| == 10 && (forall i :: 0 <= i < n ==> steps[i].Done?) && (n < 10 ==> !steps[n].Done?)
            && Perform(START, request, script) ==
               if n < 10 then Step(AfterSteps(script, n), steps[n])
               else RunCommands(AfterSteps(script, 10), request.commands, script.commands, request.failFast)
  {
    var steps := SetupSteps(request, script);
    n := 0;
    while n < 10 && steps[n].Done?
      invariant n <= 10 && forall i :: 0 <= i < n ==> steps[i].Done?
    {
      n := n + 1;
    }
    if n < 5 {
      EarlySetup(request, script, n);
    } else {
      LateSetup(request, script, n);
    }
  }

  lemma EarlySetup(request: Request, script: Script, n: nat)
    requires |request.commands| == |script.commands| && n < 5
    requires var steps := SetupSteps(request, script);
             (forall i :: 0 <= i < n ==> steps[i].Done?) && !steps[n].Done?
    ensures Perform(START, request, script) == Step(AfterSteps(script, n), SetupSteps(request, script)[n])
  {
    var steps := SetupSteps(request, script);
    assert n > 0 ==> steps[0].Done?;
    assert n > 1 ==> steps[1].Done?;
    assert n > 2 ==> steps[2].Done?;
    assert n > 3 ==> steps[3].Done?;
  }

  lemma LateSetup(request: Request, script: Script, n: nat)
    requires |request.commands| == |script.commands| && 5 <= n <= 10
    requires var steps := SetupSteps(request, script);
             (forall i :: 0 <= i < n ==> steps[i].Done?) && (n < 10 ==> !steps[n].Done?)
    ensures Perform(START, request, script) ==
            if n < 10 then Step(AfterSteps(script, n), SetupSteps(request, script)[n])
            else RunCommands(AfterSteps(script, 10), request.commands, script.commands, request.failFast)
  {
    var steps := SetupSteps(request, script);
    assert steps[0].Done? && steps[1].Done? && steps[2].Done? && steps[3].Done? && steps[4].Done?;
    assert Perform(START, request, script) == ApplyAndRun(AfterSteps(script, 5), request, script);
    assert n > 5 ==> steps[5].Done?;
    assert n > 6 ==> steps[6].Done?;
    assert n > 7 ==> steps[7].Done?;
    assert n > 8 ==> steps[8].Done?;
    assert n > 9 ==> steps[9].Done?;
  }

  predicate HasSameSetup(s: State, t: State) {
    s.snapshot == t.snapshot && s.isolated == t.isolated && s.applied == t.applied
  }

  lemma StopKeepsSetup(st: State, record: Record, commands: seq<string>)
    requires commands != []
    ensures HasSameSetup(st, StopAt(st, record, commands).last.st)
    ensures HasSameSetup(st, StopAt(st.Mark(), record, commands).last.st)
  {}

  lemma TurnKeepsSetup(st: State, commands: seq<string>, c: CommandScript, failFast: bool)
    requires commands != []
    ensures match RunCommand(st, commands, c, failFast)
            case Stop(last) => HasSameSetup(st, last.st)
            case Go(next) => HasSameSetup(st, next)
  {
    StopKeepsSetup(st, Record(commands[0], Error, None), commands);
    if !c.expired && IsIntact(st, c.preflight) && c.run.Done? {
      StopKeepsSetup(st, RunRecord(commands[0], c.run.value), commands);
    }
  }

  /** The loop does not touch what was set up before it. */
  lemma {:induction false} LoopKeepsSetup(st: State, commands: seq<string>, script: seq<CommandScript>, failFast: bool)
    requires |commands| == |script|
    ensures HasSameSetup(st, RunCommands(st, commands, script, failFast).st)
    decreases commands
  {
    if commands != [] {
      TurnKeepsSetup(st, commands, script[0], failFast);
      match RunCommand(st, commands, script[0], failFast)
      case Stop(_) =>
      case Go(next) => LoopKeepsSetup(next, commands[1..], script[1..], failFast);
    }
  }

  /** A run passes through the commands cleanly exactly when it is prepared and every command is flawless. */
  lemma PerformanceIsCleanIff(request: Request, script: Script)
    requires |request.commands| == |script.commands|
    ensures var r := Perform(START, request, script);
            LoopIsClean(r) && r.st.records != [] <==>
            && IsPrepared(script) && request.commands != [] && script.makeLogs.Done?
            && (forall c <- script.commands :: IsFlawlessCommand(c, script.fingerprint.value))
    ensures var r := Perform(START, request, script);
            LoopIsClean(r) && r.st.records != [] ==>
            && r.st.applied && r.st.snapshot && r.st.isolated
            && |r.st.records| == |request.commands|
            && (forall i :: 0 <= i < |request.commands| ==> r.st.records[i].command == request.commands[i])
  {
    var n := SetupIs(request, script);
    PreparedIff(request, script, n);
    if n == 10 {
      var ready := AfterSteps(script, 10);
      LoopIsCleanIff(ready, request.commands, script.commands, request.failFast, script.fingerprint.value);
      LoopKeepsSetup(ready, request.commands, script.commands, request.failFast);
      var finish, k := LoopHasShape(ready, request.commands, script.commands, request.failFast,
                                    script.fingerprint.value);
      assert request.commands[0..] == request.commands && script.commands[0..] == script.commands;
    }
  }

  lemma PreparedIff(request: Request, script: Script, n: nat)
    requires var steps := SetupSteps(request, script);
             n <= 10 && (forall i :: 0 <= i < n ==> steps[i].Done?) && (n < 10 ==> !steps[n].Done?)
    ensures n == 10 <==> IsPrepared(script) && (request.commands == [] || script.makeLogs.Done?)
  {
    var steps := SetupSteps(request, script);
    if n == 10 {
      assert steps[0].Done? && steps[1].Done? && steps[2].Done? && steps[3].Done? && steps[4].Done?;
      assert steps[5].Done? && steps[6].Done? && steps[7].Done? && steps[8].Done? && steps[9].Done?;
    } else if IsPrepared(script) && (request.commands == [] || script.makeLogs.Done?) {
      forall i | 0 <= i < 10 ensures steps[i].Done? { StepIsDone(request, script, i); }
    }
  }

  lemma StepIsDone(request: Request, script: Script, i: nat)
    requires IsPrepared(script) && (request.commands == [] || script.makeLogs.Done?) && i < 10
    ensures SetupSteps(request, script)[i].Done?
  {
    assert i == 0 || i == 1 || i == 2 || i == 3 || i == 4 || i == 5 || i == 6 || i == 7 || i == 8 || i == 9;
  }

  /**
   The output path holds an artifact with status "passed" exactly when nothing at all went wrong:
   every step succeeded, there was a command, every command ran to exit code zero in time with the
   workspace unchanged on both sides of it, the workspace, snapshot and runtime directory are gone,
   and the source and the producer are what they were.
   */
  lemma PassedIffFlawless(request: Request, script: Script)
    requires |request.commands| == |script.commands|
    ensures var published := Evaluate(request, script).published;
            published.Some? && published.value.status == RolledPassed <==> IsFlawless(request, script)
  {
    var e := Perform(START, request, script);
    PerformanceIsCleanIff(request, script);
    var before := if e.end == Failed then e.st.Mark() else e.st;
    var c := CleanUp(before, script);
    CleanUpIsCleanIff(before, script);
    RollsUpToPassed(c.st.records, c.st.applied, c.st.infrastructureError);
  }

  /** What a passed artifact says: applied, isolated, and one passed record per command, in order. */
  lemma PassedArtifactIsComplete(request: Request, script: Script)
    requires |request.commands| == |script.commands|
    ensures match Evaluate(request, script).published
            case None => true
            case Some(a) =>
              a.status == RolledPassed ==>
                && a.applied && a.isolated && |a.records| == |request.commands| > 0
                && (forall i :: 0 <= i < |a.records| ==>
                      a.records[i] == Record(request.commands[i], Passed, Some(0)))
  {
    var e := Perform(START, request, script);
    PerformanceIsCleanIff(request, script);
    var before := if e.end == Failed then e.st.Mark() else e.st;
    var c := CleanUp(before, script);
    CleanUpIsCleanIff(before, script);
    RollsUpToPassed(c.st.records, c.st.applied, c.st.infrastructureError);
    var records, finish, n, k := PublishedIs(request, script);
    if n == 10 { ShapeOfPassed(request, script, records, finish, k); }
  }

  lemma ShapeOfPassed(request: Request, script: Script, records: seq<Record>, finish: Finish, k: nat)
    requires |request.commands| == |script.commands| && script.fingerprint.Done?
    requires HasShape(request.commands, script.commands, request.failFast, script.fingerprint.value, records, finish, k)
    ensures AllPassed(records) && |records| == |request.commands| ==>
              forall i :: 0 <= i < |records| ==> records[i] == Record(request.commands[i], Passed, Some(0))
  {
    if AllPassed(records) && |records| == |request.commands| {
      forall i | 0 <= i < |records| ensures records[i] == Record(request.commands[i], Passed, Some(0)) {
        assert records[i] in records;
        if i < k { assert records[..k][i] == records[i]; }
      }
    }
  }

  // ----- every published artifact -----

  /** Some cleanup step raises an exception that nothing catches. */
  predicate CleanUpCrashes(script: Script, snapshot: bool) {
    || script.removeWorkspace == Crashed || (script.removeWorkspace.Done? && script.workspaceExists == Crashed)
    || (snapshot && (script.removeSnapshot == Crashed || !script.snapshotExists.Done?))
    || script.removeRuntime == Crashed || !script.runtimeExists.Done?
    || script.sourceUnchanged == Crashed || script.producerUnchanged == Crashed
  }

  lemma CleanUpCrashesIff(st: State, script: Script)
    ensures CleanUp(st, script).end == Crashed <==> CleanUpCrashes(script, st.snapshot)
  {
    var w := CleanWorkspace(st, script.removeWorkspace, script.workspaceExists);
    CleanWorkspaceIsCleanIff(st, script.removeWorkspace, script.workspaceExists);
    var p := CleanSnapshot(w.st, script.removeSnapshot, script.snapshotExists);
    CleanPathIsCleanIff(w.st, script.removeSnapshot, script.snapshotExists);
  }

  /** The status of an artifact, by its records, `doubtful` standing for an infrastructure error. */
  ghost predicate IsStatusOf(status: Rollup, records: seq<Record>, applied: bool, doubtful: bool) {
    var broken := doubtful || !applied || exists r <- records :: r.status == Error || r.status == Timeout;
    var failed, passed := exists r <- records :: r.status == FailedStatus, exists r <- records :: r.status == Passed;
    && (status == RolledError <==> broken)
    && (status == RolledMixed <==> !broken && failed && passed)
    && (status == RolledFailed <==> !broken && failed && !passed)
    && (status == RolledIncomplete <==>
          !broken && !failed && (records == [] || exists r <- records :: r.status == Skipped))
    && (status == RolledPassed <==> !broken && records != [] && forall r <- records :: r.status == Passed)
  }

  lemma RollsUpAs(records: seq<Record>, applied: bool, doubtful: bool)
    ensures IsStatusOf(RollUp(records, applied, doubtful), records, applied, doubtful)
  {
    RollsUpToPassed(records, applied, doubtful);
    assert HasStatus(records, Error) || HasStatus(records, Timeout)
      <==> exists r <- records :: r.status == Error || r.status == Timeout;
  }

  /**
   When a run publishes, and what: `n` steps of the setup were done; `records` are what the command
   loop left, none if it was not reached; the status follows from them and from the doubts raised.
   */
  lemma PublishedIs(request: Request, script: Script)
      returns (records: seq<Record>, finish: Finish, n: nat, k: nat)
    requires |request.commands| == |script.commands|
    ensures var steps := SetupSteps(request, script);
            && n <= |steps| == 10 && (forall i :: 0 <= i < n ==> steps[i].Done?) && (n < 10 ==> !steps[n].Done?)
            && (n < 10 ==> records == [] && finish == Broken(steps[n]))
    ensures n == 10 ==>
              && script.fingerprint.Done?
              && HasShape(request.commands, script.commands, request.failFast, script.fingerprint.value, records,
                          finish, k)
    ensures var published := Evaluate(request, script).published;
            && (published.Some? <==>
                  && finish != Broken(Crashed) && !CleanUpCrashes(script, n >= 2)
                  && script.buildArtifact.Done? && script.linked)
            && (published.Some? ==>
                  var a := published.value;
                  && a.records == records && a.isolated == (n >= 5) && a.applied == (n >= 7)
                  && IsStatusOf(a.status, records, n >= 7,
                                finish == Fault || finish == Broken(Failed) || !IsCleanedUp(script)))
  {
    n := SetupIs(request, script);
    var e := Perform(START, request, script);
    records := e.st.records;
    if n == 10 {
      var ready := AfterSteps(script, 10);
      assert SetupSteps(request, script)[8].Done?;
      LoopKeepsSetup(ready, request.commands, script.commands, request.failFast);
      finish, k := LoopHasShape(ready, request.commands, script.commands, request.failFast, script.fingerprint.value);
      assert request.commands[0..] == request.commands && script.commands[0..] == script.commands;
    } else {
      finish, k := Broken(e.end), 0;
    }
    var before := if e.end == Failed then e.st.Mark() else e.st;
    CleanUpIsCleanIff(before, script);
    CleanUpCrashesIff(before, script);
    var c := CleanUp(before, script);
    RollsUpAs(c.st.records, c.st.applied, c.st.infrastructureError);
  }
}
