/**
 Replacing the installed binary: stage the artifact, checkpoint the current binary, install,
 validate, and roll back on failure.
 */
module SelfUpdate {

  import opened Outcomes
  import opened Bytes
  import opened FileSystem

  datatype UpdateError =
    | NoParent | InvalidName | NotReadable | NotAFile
    | CreateFailed | WriteFailed | PermissionsFailed
    | CheckpointFailed | InstallFailed | ValidationFailed
    | CheckpointNotRemoved

  function TemporaryOf(t: Path): (p: Path) { Path(t.dir, "." + t.name + ".verdictan-update-new") }

  function BackupOf(t: Path): (p: Path) { Path(t.dir, "." + t.name + ".verdictan-update-backup") }

  lemma PathsDiffer(t: Path)
    ensures t != TemporaryOf(t) && t != BackupOf(t) && TemporaryOf(t) != BackupOf(t)
  {
    assert |TemporaryOf(t).name| == |t.name| + 22;
    assert |BackupOf(t).name| == |t.name| + 25;
  }

  /** The original binary is still on disk, in place or checkpointed. */
  ghost predicate Intact(s: Snapshot, t: Path, original: Node) {
    (t in s && s[t] == original) || (BackupOf(t) in s && s[BackupOf(t)] == original)
  }

  /** What is installed, if anything, is one of the two complete binaries. */
  ghost predicate Whole(s: Snapshot, t: Path, original: Node, installed: Node) {
    t in s ==> s[t] == original || s[t] == installed
  }

  /** A state of the run: only the three paths may differ from the start, and nothing is lost or torn. */
  ghost predicate Safe(s: Snapshot, start: Snapshot, t: Path, installed: Node)
    requires t in start
  {
    && AgreeOff(s, start, {t, TemporaryOf(t), BackupOf(t)})
    && Intact(s, t, start[t])
    && Whole(s, t, start[t], installed)
  }

  ghost predicate SafeBetween(trace: seq<Snapshot>, from: nat, to: nat, start: Snapshot, t: Path, installed: Node)
    requires t in start
  {
    from <= to <= |trace| && forall k | from <= k < to :: Safe(trace[k], start, t, installed)
  }

  /** The original is in place and only the two working paths may differ from the start. */
  ghost predicate Ready(s: Snapshot, start: Snapshot, t: Path)
    requires t in start
  {
    t in s && s[t] == start[t] && AgreeOff(s, start, {t, TemporaryOf(t), BackupOf(t)})
  }

  lemma ReadyIsSafe(s: Snapshot, start: Snapshot, t: Path, installed: Node)
    requires t in start && Ready(s, start, t)
    ensures Safe(s, start, t, installed)
  {
  }

  /** No directory sits where the working files go. */
  ghost predicate Unobstructed(s: Snapshot, t: Path) {
    && (TemporaryOf(t) in s ==> s[TemporaryOf(t)].File?)
    && (BackupOf(t) in s ==> s[BackupOf(t)].File?)
  }

  function Count(b: bool): (n: nat) { if b then 1 else 0 }

  /** Stale working files from an earlier run are removed, and failures ignored. */
  method RemoveStale(disk: Disk, t: Path, ghost installed: Node)
    requires t in disk.nodes
    modifies disk
    ensures old(disk.trace) <= disk.trace
    ensures SafeBetween(disk.trace, |old(disk.trace)|, |disk.trace|, old(disk.nodes), t, installed)
    ensures Ready(disk.nodes, old(disk.nodes), t)
    ensures old(disk.faults) <= disk.faults && (disk.reliable ==> disk.faults == old(disk.faults))
    ensures Unobstructed(old(disk.nodes), t) ==>
              && Unobstructed(disk.nodes, t)
              && disk.faults - old(disk.faults)
                 == Count(TemporaryOf(t) in disk.nodes) + Count(BackupOf(t) in disk.nodes)
  {
    PathsDiffer(t);
    var _ := disk.RemoveFile(TemporaryOf(t));
    ReadyIsSafe(disk.nodes, old(disk.nodes), t, installed);
    var _ := disk.RemoveFile(BackupOf(t));
    ReadyIsSafe(disk.nodes, old(disk.nodes), t, installed);
  }

  /** Create, fill and label the temporary file; the binary in place is not touched. */
  method Stage(disk: Disk, t: Path, artifact: seq<Byte>, mode: nat, umaskMode: nat, ghost start: Snapshot)
    returns (error: Option<UpdateError>)
    requires t in start && start[t].File? && start[t].mode == mode
    requires Ready(disk.nodes, start, t)
    modifies disk
    ensures old(disk.trace) <= disk.trace
    ensures SafeBetween(disk.trace, |old(disk.trace)|, |disk.trace|, start, t, File(artifact, mode))
    ensures Ready(disk.nodes, start, t)
    ensures error.None? ==> TemporaryOf(t) in disk.nodes && disk.nodes[TemporaryOf(t)] == File(artifact, mode)
    ensures error.None? ==> TemporaryOf(t) !in disk.dirty
    ensures error.Some? ==> error.value in {CreateFailed, WriteFailed, PermissionsFailed}
    ensures AgreeOff(disk.nodes, old(disk.nodes), {TemporaryOf(t)})
    ensures TemporaryOf(t) in old(disk.nodes) ==> error == Some(CreateFailed) && disk.nodes == old(disk.nodes)
    ensures TemporaryOf(t) !in old(disk.nodes) && TemporaryOf(t) in disk.nodes ==> disk.nodes[TemporaryOf(t)].File?
    ensures disk.faults == old(disk.faults) + Count(error.Some? && TemporaryOf(t) !in old(disk.nodes))
    ensures disk.reliable ==> disk.faults == old(disk.faults)
  {
    PathsDiffer(t);
    var temporary := TemporaryOf(t);
    var ok := disk.CreateNew(temporary, umaskMode);
    if !ok { return Some(CreateFailed); }
    ok := disk.WriteAll(temporary, artifact);
    if !ok { return Some(WriteFailed); }
    ok := disk.Sync(temporary);
    if !ok { return Some(WriteFailed); }
    ok := disk.SetMode(temporary, mode);
    if !ok { return Some(PermissionsFailed); }
    error := None;
  }

  /** The result of a run, with what the environment decided along the way. */
  datatype Outcome = Outcome(result: Result<(), UpdateError>, validated: bool, rolledBack: bool)
  {
    /** A successful run ends with the state in which the original is gone. */
    function Last(): (n: nat) { if result.Ok? then 1 else 0 }
  }

  /** The original is checkpointed and the target holds the artifact or nothing. */
  ghost predicate Checkpointed(s: Snapshot, start: Snapshot, t: Path, installed: Node)
    requires t in start
  {
    && BackupOf(t) in s && s[BackupOf(t)] == start[t]
    && (t in s ==> s[t] == installed)
    && AgreeOff(s, start, {t, TemporaryOf(t), BackupOf(t)})
  }

  /** Undo an installation: failures are ignored, and the original is at one of its two places. */
  method RollBack(disk: Disk, t: Path, ghost start: Snapshot, ghost installed: Node) returns (back: bool)
    requires t in start && start[t].File? && Checkpointed(disk.nodes, start, t, installed)
    modifies disk
    ensures old(disk.trace) <= disk.trace
    ensures SafeBetween(disk.trace, |old(disk.trace)|, |disk.trace|, start, t, installed)
    ensures if back then Ready(disk.nodes, start, t) else Checkpointed(disk.nodes, start, t, installed)
    ensures if back then BackupOf(t) !in disk.nodes else disk.nodes == old(disk.nodes)
    ensures AgreeOff(disk.nodes, old(disk.nodes), {t, BackupOf(t)})
    ensures installed.File? ==> disk.faults == old(disk.faults) + Count(!back)
    ensures disk.reliable ==> disk.faults == old(disk.faults)
  {
    PathsDiffer(t);
    back := disk.Rename(BackupOf(t), t);
  }

  /** What a run leaves behind. */
  ghost predicate LeftBy(o: Outcome, s: Snapshot, start: Snapshot, t: Path, installed: Node)
    requires t in start
  {
    match o.result
    case Ok(_) =>
      && o.validated && TemporaryOf(t) !in s && BackupOf(t) !in s
      && t in s && s[t] == installed
      && AgreeOff(s, start, {t, TemporaryOf(t), BackupOf(t)})
    case Err(e) =>
      && (o.validated <==> e == CheckpointNotRemoved)
      && (if o.validated then Checkpointed(s, start, t, installed) && t in s
          else if o.rolledBack then Ready(s, start, t)
          else Checkpointed(s, start, t, installed) && e in {InstallFailed, ValidationFailed})
  }

  /** What the number of faults between two points says about an outcome. */
  ghost predicate FaultsTell(o: Outcome, s: Snapshot, t: Path, runs: bool, before: nat, after: nat) {
    && before <= after
    && (o.rolledBack ==> BackupOf(t) !in s)
    && (TemporaryOf(t) in s ==> s[TemporaryOf(t)].File?)
    && match o.result
       case Ok(_) => runs
       case Err(ValidationFailed) =>
         && !runs && TemporaryOf(t) !in s && (before == after ==> o.rolledBack)
         && (after == before + 1 && !o.rolledBack ==> t !in s)
       case Err(CheckpointNotRemoved) => runs && TemporaryOf(t) !in s && before < after
       case Err(_) => before < after && (after == before + 1 ==> o.rolledBack)
  }

  /** Install and validate a staged artifact; roll back when it cannot be installed or run. */
  method InstallAndValidate(disk: Disk, t: Path, runs: bool, ghost start: Snapshot,
      ghost installed: Node) returns (o: Outcome)
    requires t in start && start[t].File? && t !in disk.nodes && installed.File?
    requires Checkpointed(disk.nodes, start, t, installed)
    requires TemporaryOf(t) in disk.nodes && disk.nodes[TemporaryOf(t)] == installed && TemporaryOf(t) !in disk.dirty
    modifies disk
    ensures |old(disk.trace)| < |disk.trace| && old(disk.trace) <= disk.trace
    ensures SafeBetween(disk.trace, |old(disk.trace)|, |disk.trace| - o.Last(), start, t, installed)
    ensures LeftBy(o, disk.nodes, start, t, installed)
    ensures o.result.Err? ==> o.result.error in {InstallFailed, ValidationFailed, CheckpointNotRemoved}
    ensures (o.validated ==> runs) && (o.result.Ok? ==> t !in disk.dirty)
    ensures FaultsTell(o, disk.nodes, t, runs, old(disk.faults), disk.faults)
    ensures disk.reliable ==> disk.faults == old(disk.faults)
  {
    PathsDiffer(t);
    var ok := disk.Rename(TemporaryOf(t), t);
    if !ok {
      var back := RollBack(disk, t, start, installed);
      return Outcome(Err(InstallFailed), false, back);
    }
    if !runs {
      var _ := disk.RemoveFile(t);
      var back := RollBack(disk, t, start, installed);
      return Outcome(Err(ValidationFailed), false, back);
    }
    ok := disk.RemoveFile(BackupOf(t));
    if !ok { return Outcome(Err(CheckpointNotRemoved), true, false); }
    o := Outcome(Ok(()), true, false);
  }

  /** Checkpoint the current binary, then install and validate the staged one. */
  method Exchange(disk: Disk, t: Path, runs: bool, ghost start: Snapshot, ghost installed: Node) returns (o: Outcome)
    requires t in start && start[t].File? && installed.File? && Ready(disk.nodes, start, t)
    requires TemporaryOf(t) in disk.nodes && disk.nodes[TemporaryOf(t)] == installed && TemporaryOf(t) !in disk.dirty
    modifies disk
    ensures |old(disk.trace)| < |disk.trace| && old(disk.trace) <= disk.trace
    ensures SafeBetween(disk.trace, |old(disk.trace)|, |disk.trace| - o.Last(), start, t, installed)
    ensures LeftBy(o, disk.nodes, start, t, installed)
    ensures o.result.Err? ==>
              o.result.error in {CheckpointFailed, InstallFailed, ValidationFailed, CheckpointNotRemoved}
    ensures (o.validated ==> runs) && (o.result.Ok? ==> t !in disk.dirty)
    ensures (BackupOf(t) in old(disk.nodes) ==>
               old(disk.nodes)[BackupOf(t)].File? && disk.faults == old(disk.faults)) ==>
              FaultsTell(o, disk.nodes, t, runs, old(disk.faults), disk.faults)
    ensures old(disk.faults) <= disk.faults && (disk.reliable ==> disk.faults == old(disk.faults))
  {
    PathsDiffer(t);
    var ok := disk.Rename(t, BackupOf(t));
    if ok {
      o := InstallAndValidate(disk, t, runs, start, installed);
    } else {
      o := Outcome(Err(CheckpointFailed), false, true);
    }
  }

  /** Stage the artifact and exchange it for the current binary. */
  method Attempt(disk: Disk, t: Path, artifact: seq<Byte>, umaskMode: nat, runs: bool, ghost start: Snapshot)
    returns (o: Outcome)
    requires t in start && start[t].File? && Ready(disk.nodes, start, t)
    modifies disk
    ensures old(disk.trace) <= disk.trace && |old(disk.trace)| <= |disk.trace| - o.Last()
    ensures SafeBetween(disk.trace, |old(disk.trace)|, |disk.trace| - o.Last(), start, t, File(artifact, start[t].mode))
    ensures LeftBy(o, disk.nodes, start, t, File(artifact, start[t].mode))
    ensures o.result.Err? ==> o.result.error !in {NoParent, InvalidName, NotReadable, NotAFile}
    ensures (o.validated ==> runs) && (o.result.Ok? ==> t !in disk.dirty)
    ensures old(disk.faults) <= disk.faults && (disk.reliable ==> disk.faults == old(disk.faults))
    ensures TemporaryOf(t) in old(disk.nodes) ==>
              o == Outcome(Err(CreateFailed), false, true) && disk.nodes == old(disk.nodes)
    ensures (&& TemporaryOf(t) !in old(disk.nodes)
             && (BackupOf(t) in old(disk.nodes) ==>
                   old(disk.nodes)[BackupOf(t)].File? && disk.faults == old(disk.faults))) ==>
              FaultsTell(o, disk.nodes, t, runs, old(disk.faults), disk.faults)
  {
    PathsDiffer(t);
    var mode := disk.nodes[t].mode;
    var error := Stage(disk, t, artifact, mode, umaskMode, start);
    if error.Some? {
      o := Outcome(Err(error.value), false, true);
    } else {
      o := Exchange(disk, t, runs, start, File(artifact, mode));
    }
  }

  /** How a run with at most one fault ends: every failure but that of the clean-up or the rollback itself is undone. */
  ghost predicate EndsAs(o: Outcome, s: Snapshot, start: Snapshot, t: Path, runs: bool, installed: Node, faults: nat)
    requires t in start
  {
    var undone := start - {TemporaryOf(t), BackupOf(t)};
    match o.result
    case Ok(_) => runs && s == undone[t := installed]
    case Err(CheckpointNotRemoved) => runs && faults == 1 && s == undone[t := installed][BackupOf(t) := start[t]]
    case Err(ValidationFailed) =>
      !runs && (s == undone || (faults == 1 && s == (undone - {t})[BackupOf(t) := start[t]]))
    case Err(_) => faults == 1 && s == undone
  }

  lemma {:induction false} RestoredIsExact(s: Snapshot, start: Snapshot, t: Path)
    requires t in start && Ready(s, start, t) && TemporaryOf(t) !in s && BackupOf(t) !in s
    ensures s == start - {TemporaryOf(t), BackupOf(t)}
  {
    PathsDiffer(t);
  }

  lemma {:induction false} CheckpointedIsExact(s: Snapshot, start: Snapshot, t: Path, installed: Node)
    requires t in start && Checkpointed(s, start, t, installed) && TemporaryOf(t) !in s
    ensures var undone := start - {TemporaryOf(t), BackupOf(t)};
            s == (if t in s then undone[t := installed] else undone - {t})[BackupOf(t) := start[t]]
  {
    PathsDiffer(t);
  }

  lemma {:induction false} EndIsExact(o: Outcome, s: Snapshot, start: Snapshot, t: Path, runs: bool, installed: Node,
      faults: nat)
    requires t in start && LeftBy(o, s, start, t, installed) && TemporaryOf(t) !in s
    requires FaultsTell(o, s, t, runs, 0, faults) && faults <= 1
    ensures EndsAs(o, s, start, t, runs, installed, faults)
  {
    if o.result.Ok? {
      SuccessIsExact(o, s, start, t, installed);
    } else if o.rolledBack && !o.validated {
      RestoredIsExact(s, start, t);
    } else {
      CheckpointedIsExact(s, start, t, installed);
    }
  }

  /** The run proper, once the target is known to be a file. */
  method Replace(disk: Disk, t: Path, artifact: seq<Byte>, umaskMode: nat, runs: bool) returns (o: Outcome)
    requires t in disk.nodes && disk.nodes[t].File?
    modifies disk
    ensures old(disk.trace) <= disk.trace && |old(disk.trace)| < |disk.trace|
    ensures var start := old(disk.nodes);
            var installed := File(artifact, start[t].mode);
            && SafeBetween(disk.trace, |old(disk.trace)|, |disk.trace| - o.Last(), start, t, installed)
            && LeftBy(o, disk.nodes, start, t, installed)
    ensures o.result.Err? ==> o.result.error !in {NoParent, InvalidName, NotReadable, NotAFile}
    ensures (o.validated ==> runs) && (o.result.Ok? ==> t !in disk.dirty)
    ensures old(disk.faults) <= disk.faults && (disk.reliable ==> disk.faults == old(disk.faults))
    ensures var start, faults := old(disk.nodes), disk.faults - old(disk.faults);
            Unobstructed(start, t) && faults <= 1 ==>
              EndsAs(o, disk.nodes, start, t, runs, File(artifact, start[t].mode), faults)
  {
    PathsDiffer(t);
    ghost var start := disk.nodes;
    ghost var installed := File(artifact, start[t].mode);
    RemoveStale(disk, t, installed);
    o := Attempt(disk, t, artifact, umaskMode, runs, start);
    if o.result.Err? {
      var _ := disk.RemoveFile(TemporaryOf(t));
    }
    ghost var faults := disk.faults - old(disk.faults);
    if Unobstructed(start, t) && faults <= 1 {
      EndIsExact(o, disk.nodes, start, t, runs, installed, faults);
    }
  }

  method AtomicReplaceAndValidate(disk: Disk, parent: Option<string>, fileName: Option<string>, artifact: seq<Byte>,
      umaskMode: nat, runs: bool)
    returns (o: Outcome)
    modifies disk
    ensures old(disk.faults) <= disk.faults && (disk.reliable ==> disk.faults == old(disk.faults))
    ensures parent.None? <==> o.result == Err(NoParent)
    ensures parent.Some? && fileName.None? <==> o.result == Err(InvalidName)
    ensures o.result.Err? && o.result.error in {NoParent, InvalidName, NotReadable, NotAFile} ==>
              disk.nodes == old(disk.nodes) && disk.trace == old(disk.trace)
    ensures o.result.Ok? || o.result.error !in {NoParent, InvalidName, NotReadable, NotAFile} ==>
              && parent.Some? && fileName.Some?
              && var t, start := Path(parent.value, fileName.value), old(disk.nodes);
              && t in start && start[t].File?
              && var installed := File(artifact, start[t].mode);
              && old(disk.trace) <= disk.trace && |old(disk.trace)| < |disk.trace|
              && SafeBetween(disk.trace, |old(disk.trace)|, |disk.trace| - o.Last(), start, t, installed)
              && LeftBy(o, disk.nodes, start, t, installed)
              && (o.validated ==> runs) && (o.result.Ok? ==> t !in disk.dirty)
              && var faults := disk.faults - old(disk.faults);
              && (Unobstructed(start, t) && faults <= 1 ==> EndsAs(o, disk.nodes, start, t, runs, installed, faults))
    ensures disk.faults == old(disk.faults) && parent.Some? && fileName.Some? ==>
              var t, start := Path(parent.value, fileName.value), old(disk.nodes);
              && (t !in start <==> o.result == Err(NotReadable))
              && (t in start && start[t].Directory? <==> o.result == Err(NotAFile))
  {
    if parent.None? { return Outcome(Err(NoParent), false, true); }
    if fileName.None? { return Outcome(Err(InvalidName), false, true); }
    var t := Path(parent.value, fileName.value);
    var isFile := disk.Metadata(t);
    if isFile.None? { return Outcome(Err(NotReadable), false, true); }
    if !isFile.value { return Outcome(Err(NotAFile), false, true); }
    o := Replace(disk, t, artifact, umaskMode, runs);
  }

  // ----- what the contract means -----

  /** Success replaces the target by the artifact, removes both working files and changes nothing else. */
  lemma SuccessIsExact(o: Outcome, s: Snapshot, start: Snapshot, t: Path, installed: Node)
    requires t in start && LeftBy(o, s, start, t, installed) && o.result.Ok?
    ensures s == (start - {TemporaryOf(t), BackupOf(t)})[t := installed]
  {
    PathsDiffer(t);
    var expected := (start - {TemporaryOf(t), BackupOf(t)})[t := installed];
    forall p ensures p in s <==> p in expected {
    }
    assert forall p | p in s :: s[p] == expected[p];
  }

  /** A failure before validation with a successful rollback leaves the original in place. */
  lemma FailureKeepsOriginal(o: Outcome, s: Snapshot, start: Snapshot, t: Path, installed: Node)
    requires t in start && LeftBy(o, s, start, t, installed) && o.result.Err?
    ensures Intact(s, t, start[t])
    ensures !o.validated && o.rolledBack ==> t in s && s[t] == start[t]
    ensures o.validated ==> t in s && s[t] == installed && s[BackupOf(t)] == start[t]
  {
  }
}
