/** `write_atomically` as one process runs it: temporary file, rename, and clean-up on failure. */
module Persistence {

  import opened Bytes
  import opened FileSystem
  import opened AtomicWrite

  /** Every state passed differs from the start in the temporary alone, or ends in the complete replacement. */
  ghost predicate WholeSince(trace: seq<Snapshot>, from: nat, start: Snapshot, path: Path, tmp: Path, node: Node) {
    forall k | from <= k < |trace| ::
      && (path in trace[k] ==> (path in start && trace[k][path] == start[path]) || trace[k][path] == node)
      && (path in start ==> path in trace[k])
      && AgreeOff(trace[k], start, {path, tmp})
  }

  method WriteAtomically(disk: Disk, path: Path, bytes: seq<Byte>, mode: nat, id: string) returns (ok: bool)
    modifies disk
    ensures var tmp := TemporaryPath(path, id);
            var start := old(disk.nodes);
            && old(disk.trace) <= disk.trace
            && WholeSince(disk.trace, |old(disk.trace)|, start, path, tmp, File(bytes, mode))
            && (ok ==> tmp !in start && disk.nodes == start[path := File(bytes, mode)] && path !in disk.dirty)
            && (!ok ==> AgreeOff(disk.nodes, start, {tmp}) && (tmp in start ==> disk.nodes == start))
            && old(disk.faults) <= disk.faults && (disk.reliable ==> disk.faults == old(disk.faults))
            && var blocked := path in start && start[path].Directory?;
            && (disk.faults == old(disk.faults) ==> (ok <==> tmp !in start && !blocked))
            && (!ok && disk.faults <= old(disk.faults) + (if blocked then 0 else 1) ==> disk.nodes == start)
  {
    TemporaryIsNotTarget(path, id);
    var tmp := TemporaryPath(path, id);
    ok := disk.CreateNew(tmp, mode);
    if !ok { return; }
    ok := disk.WriteAll(tmp, bytes);
    if ok {
      ok := disk.Sync(tmp);
    }
    if ok {
      ok := disk.Rename(tmp, path);
    }
    if !ok {
      var _ := disk.RemoveFile(tmp);
    }
  }
}
