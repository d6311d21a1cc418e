/** The credential store file as one process uses it: read, change the map, replace the file. */
module CredentialFile {

  import opened Outcomes
  import opened Bytes
  import opened FileSystem
  import opened AtomicWrite
  import opened Persistence
  import opened Credentials
  import opened Trimming

  /** The JSON reader and printer. */
  datatype Codec = Codec(parse: seq<Byte> -> Option<Store>, encode: Store -> seq<Byte>)

  ghost predicate RoundTrips(codec: Codec) {
    forall s :: codec.parse(codec.encode(s)) == Some(s)
  }

  datatype StoreError = Unreadable | NotJson | DirectoryNotPrivate | NotWritten

  /** Mode 0600. */
  const PRIVATE_MODE := 384

  /** What the file says: a missing file is an empty store. */
  function Contents(nodes: Snapshot, path: Path, codec: Codec): (r: Result<Store, StoreError>) {
    if path !in nodes then Ok(map[])
    else if nodes[path].Directory? then Err(Unreadable)
    else
      match codec.parse(nodes[path].data)
      case None => Err(NotJson)
      case Some(s) => Ok(s)
  }

  /** There is no file, or one that parses. */
  ghost predicate Parses(nodes: Snapshot, path: Path, codec: Codec) {
    path in nodes ==> nodes[path].File? && codec.parse(nodes[path].data).Some?
  }

  method ReadStore(disk: Disk, path: Path, codec: Codec) returns (r: Result<Store, StoreError>)
    ensures r == Contents(disk.nodes, path, codec) || (!disk.reliable && r == Err(Unreadable))
  {
    var readable: bool := *;
    if !readable && !disk.reliable { return Err(Unreadable); }
    r := Contents(disk.nodes, path, codec);
  }

  method LoadFromPath(disk: Disk, path: Path, codec: Codec,
      profile: Option<string>) returns (r: Result<Option<Credential>, StoreError>)
    ensures r.Ok? ==>
              var c := Contents(disk.nodes, path, codec);
              c.Ok? && r.value == Get(c.value, ProfileName(profile))
    ensures disk.reliable ==> (r.Ok? <==> Parses(disk.nodes, path, codec))
    ensures r.Err? ==> r.error in {NotJson, Unreadable}
    ensures disk.reliable ==> (r == Err(Unreadable) <==> path in disk.nodes && disk.nodes[path].Directory?)
    ensures r == Err(NotJson) ==> HoldsFile(disk.nodes, path) && codec.parse(disk.nodes[path].data).None?
  {
    var store := ReadStore(disk, path, codec);
    if store.Err? { return Err(store.error); }
    r := Ok(Get(store.value, ProfileName(profile)));
  }

  /** The file holds the store, with mode 0600, and nothing else changed. */
  ghost predicate Written(nodes: Snapshot, start: Snapshot, path: Path, codec: Codec, store: Store) {
    && Contents(nodes, path, codec) == Ok(store)
    && path in nodes && nodes[path].File? && nodes[path].mode == 6 * 64
    && AgreeOff(nodes, start, {path})
  }

  /** The file is as it was, and at most the drawn temporary name is left behind. */
  ghost predicate Untouched(nodes: Snapshot, start: Snapshot, path: Path, id: string) {
    AgreeOff(nodes, start, {TemporaryPath(path, id)}) && (path in nodes <==> path in start)
    && (path in start ==> nodes[path] == start[path])
  }

  method WriteStore(disk: Disk, path: Path, codec: Codec, store: Store, id: string) returns (r: Result<(), StoreError>)
    requires RoundTrips(codec)
    modifies disk
    ensures r.Ok? ==> Written(disk.nodes, old(disk.nodes), path, codec, store) && path !in disk.dirty
    ensures r.Err? ==> Untouched(disk.nodes, old(disk.nodes), path, id)
    ensures (&& disk.reliable && TemporaryPath(path, id) !in old(disk.nodes)
             && !(path in old(disk.nodes) && old(disk.nodes)[path].Directory?)) ==> r.Ok?
  {
    TemporaryIsNotTarget(path, id);
    var private: bool := *;
    if !private && !disk.reliable { return Err(DirectoryNotPrivate); }
    var ok := WriteAtomically(disk, path, codec.encode(store), PRIVATE_MODE, id);
    r := if ok then Ok(()) else Err(NotWritten);
  }

  /** `save_to_path` and `delete_from_path`: the flag tells whether a profile was removed. */
  method Perform(disk: Disk, path: Path, codec: Codec, op: Op, id: string) returns (r: Result<bool, StoreError>)
    requires RoundTrips(codec)
    modifies disk
    ensures var before := Contents(old(disk.nodes), path, codec);
            && (r.Ok? ==>
                  && before.Ok? && (r.value <==> op.Save? || op.Name() in before.value)
                  && (r.value ==> path !in disk.dirty)
                  && (if r.value then Written(disk.nodes, old(disk.nodes), path, codec, Applied(op, before.value))
                      else disk.nodes == old(disk.nodes)))
            && (r.Err? ==> Untouched(disk.nodes, old(disk.nodes), path, id))
            && (before.Err? ==>
                  && r.Err? && disk.nodes == old(disk.nodes)
                  && (r.error == before.error || (!disk.reliable && r.error == Unreadable)))
            && (before.Ok? && op.Delete? && op.Name() !in before.value ==>
                  disk.nodes == old(disk.nodes) && disk.trace == old(disk.trace))
            && (disk.reliable && before.Ok? && TemporaryPath(path, id) !in old(disk.nodes) ==> r.Ok?)
  {
    TemporaryIsNotTarget(path, id);
    var store := ReadStore(disk, path, codec);
    if store.Err? { return Err(store.error); }
    var next := Effect(op, store.value);
    if next.None? { return Ok(false); }
    var written := WriteStore(disk, path, codec, next.value, id);
    r := if written.Ok? then Ok(true) else Err(written.error);
  }

  /** A successful operation changes the stored map as the map operation does, and keeps every other profile. */
  lemma OperationOnContents(nodes: Snapshot, start: Snapshot, path: Path, codec: Codec, op: Op, name: string)
    requires Contents(start, path, codec).Ok? && name != op.Name()
    requires Written(nodes, start, path, codec, Applied(op, Contents(start, path, codec).value))
    ensures var before, after := Contents(start, path, codec), Contents(nodes, path, codec);
            && after.Ok? && Get(after.value, name) == Get(before.value, name)
            && Get(after.value, op.Name()) == Left(op)
  {
  }

  /** A state after an operation: it took effect, or left the stored map alone. */
  ghost predicate Follows(after: Snapshot, before: Snapshot, path: Path, codec: Codec, op: Op, done: bool) {
    && Contents(before, path, codec).Ok?
    && Contents(after, path, codec) ==
         if done then Ok(Applied(op, Contents(before, path, codec).value)) else Contents(before, path, codec)
  }

  /** The operations that succeeded. */
  function Succeeded(ops: seq<Op>, done: seq<bool>): (r: seq<Op>)
    requires |ops| == |done|
  {
    if ops == [] then []
    else
      var n := |ops| - 1;
      Succeeded(ops[..n], done[..n]) + if done[n] then [ops[n]] else []
  }

  /** The states of the disk around a sequence of operations. */
  ghost predicate Chain(states: seq<Snapshot>, ops: seq<Op>, done: seq<bool>, path: Path, codec: Codec) {
    && |states| == |ops| + 1 && |done| == |ops| && Contents(states[0], path, codec).Ok?
    && forall i | 0 <= i < |ops| :: Follows(states[i + 1], states[i], path, codec, ops[i], done[i])
  }

  lemma {:induction false} LongerChain(states: seq<Snapshot>, ops: seq<Op>, done: seq<bool>, path: Path, codec: Codec,
                                       state: Snapshot, op: Op, ok: bool)
    requires Chain(states, ops, done, path, codec) && Follows(state, states[|ops|], path, codec, op, ok)
    ensures Chain(states + [state], ops + [op], done + [ok], path, codec)
  {
    var states', ops', done' := states + [state], ops + [op], done + [ok];
    forall i | 0 <= i < |ops'| ensures Follows(states'[i + 1], states'[i], path, codec, ops'[i], done'[i]) {
      if i < |ops| {
        assert Follows(states[i + 1], states[i], path, codec, ops[i], done[i]);
      }
    }
  }

  /** One process after another: the file follows the plain map, failed operations not counting. */
  lemma {:induction false} SequentialHistoryIsMap(states: seq<Snapshot>, ops: seq<Op>, done: seq<bool>, path: Path,
      codec: Codec)
    requires Chain(states, ops, done, path, codec)
    ensures Contents(states[|ops|], path, codec)
            == Ok(History(Contents(states[0], path, codec).value, Succeeded(ops, done)))
    decreases |ops|
  {
    if ops != [] {
      var n := |ops| - 1;
      SequentialHistoryIsMap(states[..n + 1], ops[..n], done[..n], path, codec);
      assert Follows(states[n + 1], states[n], path, codec, ops[n], done[n]);
      var before := Succeeded(ops[..n], done[..n]);
      if done[n] {
        assert (before + [ops[n]])[..|before|] == before;
      } else {
        assert before + [] == before;
      }
    }
  }

  /** The map after a failed or successful operation, from what the operation promises. */
  lemma {:induction false} PerformedFollows(after: Snapshot, before: Snapshot, path: Path, codec: Codec, op: Op,
      id: string, r: Result<bool, StoreError>)
    requires Contents(before, path, codec).Ok?
    requires r.Ok? ==> if r.value
                       then Written(after, before, path, codec, Applied(op, Contents(before, path, codec).value))
                       else after == before && Effect(op, Contents(before, path, codec).value).None?
    requires r.Err? ==> Untouched(after, before, path, id)
    ensures Follows(after, before, path, codec, op, r.Ok?)
    ensures forall p | p != path && p != TemporaryPath(path, id) :: p in after <==> p in before
  {
  }

  ghost predicate FreshNames(nodes: Snapshot, path: Path, ids: seq<string>) {
    forall i | 0 <= i < |ids| :: TemporaryPath(path, ids[i]) !in nodes
  }

  lemma {:induction false} StayFresh(after: Snapshot, before: Snapshot, path: Path, ids: seq<string>)
    requires FreshNames(before, path, ids) && AgreeOff(after, before, {path})
    ensures FreshNames(after, path, ids)
  {
    forall i | 0 <= i < |ids| ensures TemporaryPath(path, ids[i]) !in after {
      TemporaryIsNotTarget(path, ids[i]);
    }
  }

  /** One operation as a step of a history, with the names that further operations will draw. */
  method PerformNext(disk: Disk, path: Path, codec: Codec, op: Op, ids: seq<string>, k: nat) returns (ok: bool)
    requires RoundTrips(codec) && k < |ids| && Contents(disk.nodes, path, codec).Ok?
    modifies disk
    ensures Follows(disk.nodes, old(disk.nodes), path, codec, op, ok)
    ensures disk.reliable && FreshNames(old(disk.nodes), path, ids) ==> ok && FreshNames(disk.nodes, path, ids)
  {
    var r := Perform(disk, path, codec, op, ids[k]);
    PerformedFollows(disk.nodes, old(disk.nodes), path, codec, op, ids[k], r);
    if disk.reliable && FreshNames(old(disk.nodes), path, ids) {
      StayFresh(disk.nodes, old(disk.nodes), path, ids);
    }
    ok := r.Ok?;
  }

  ghost predicate AllDone(done: seq<bool>) { forall i | 0 <= i < |done| :: done[i] }

  lemma OneMoreDone(sure: bool, done: seq<bool>, ok: bool)
    requires sure ==> ok && AllDone(done)
    ensures sure ==> AllDone(done + [ok])
  {
  }

  /** Logins and logouts one after another, whichever of them fail, leave the map of those that succeeded. */
  method PerformAll(disk: Disk, path: Path, codec: Codec, ops: seq<Op>, ids: seq<string>) returns (done: seq<bool>)
    requires RoundTrips(codec) && |ids| == |ops| && Parses(disk.nodes, path, codec)
    modifies disk
    ensures |done| == |ops|
    ensures Contents(disk.nodes, path, codec)
         == Ok(History(Contents(old(disk.nodes), path, codec).value, Succeeded(ops, done)))
    ensures disk.reliable && FreshNames(old(disk.nodes), path, ids) ==> AllDone(done)
  {
    ghost var states, sure := [disk.nodes], disk.reliable && FreshNames(disk.nodes, path, ids);
    done := [];
    while |done| < |ops|
      invariant |done| <= |ops| && |states| == |done| + 1
      invariant states[0] == old(disk.nodes) && states[|done|] == disk.nodes
      invariant Contents(disk.nodes, path, codec).Ok?
      invariant Chain(states, ops[..|done|], done, path, codec)
      invariant sure ==> disk.reliable && FreshNames(disk.nodes, path, ids) && AllDone(done)
      decreases |ops| - |done|
    {
      var n := |done|;
      var ok := PerformNext(disk, path, codec, ops[n], ids, n);
      LongerChain(states, ops[..n], done, path, codec, disk.nodes, ops[n], ok);
      assert ops[..n] + [ops[n]] == ops[..n + 1];
      OneMoreDone(sure, done, ok);
      done := done + [ok];
      states := states + [disk.nodes];
    }
    assert ops[..|ops|] == ops;
    SequentialHistoryIsMap(states, ops, done, path, codec);
  }

  // ----- the token after a history -----

  /** The latest operation on a profile among those that succeeded. */
  ghost predicate LatestSuccess(ops: seq<Op>, done: seq<bool>, i: nat, name: string)
    requires |ops| == |done|
  {
    && i < |ops| && done[i] && ops[i].Name() == name
    && forall j | i < j < |ops| && done[j] :: ops[j].Name() != name
  }

  ghost predicate NoSuccess(ops: seq<Op>, done: seq<bool>, name: string)
    requires |ops| == |done|
  {
    forall j | 0 <= j < |ops| && done[j] :: ops[j].Name() != name
  }

  lemma {:induction false} SucceededAt(store: Store, ops: seq<Op>, done: seq<bool>, name: string)
    requires |ops| == |done| && ops != []
    ensures var n := |ops| - 1;
            Get(History(store, Succeeded(ops, done)), name)
            == if done[n] && ops[n].Name() == name then Left(ops[n])
               else Get(History(store, Succeeded(ops[..n], done[..n])), name)
  {
    var n := |ops| - 1;
    var before := Succeeded(ops[..n], done[..n]);
    if done[n] {
      HistoryAt(store, before + [ops[n]], name);
      assert (before + [ops[n]])[..|before|] == before;
    } else {
      assert before + [] == before;
    }
  }

  lemma {:induction false} LatestSuccessWins(store: Store, ops: seq<Op>, done: seq<bool>, i: nat, name: string)
    requires |ops| == |done| && LatestSuccess(ops, done, i, name)
    ensures Get(History(store, Succeeded(ops, done)), name) == Left(ops[i])
    decreases |ops|
  {
    SucceededAt(store, ops, done, name);
    if i < |ops| - 1 {
      LatestSuccessWins(store, ops[..|ops| - 1], done[..|ops| - 1], i, name);
    }
  }

  lemma {:induction false} NoSuccessNoChange(store: Store, ops: seq<Op>, done: seq<bool>, name: string)
    requires |ops| == |done| && NoSuccess(ops, done, name)
    ensures Get(History(store, Succeeded(ops, done)), name) == Get(store, name)
    decreases |ops|
  {
    if ops != [] {
      SucceededAt(store, ops, done, name);
      NoSuccessNoChange(store, ops[..|ops| - 1], done[..|ops| - 1], name);
    }
  }

  /** What resolving a profile's token yields when its latest operation that succeeded is known. */
  ghost predicate TokenOf(op: Op, clock: Clock, now: int, r: Result<string, AuthError>) {
    if op.Save? then
      && (r.Ok? <==> Usable(op.credential, clock, now))
      && (r.Ok? ==> r.value == op.credential.apiToken)
    else r == Err(MissingToken)
  }

  lemma {:induction false} TokenOfLeft(op: Op, flag: Option<string>, env: Option<string>, clock: Clock, now: int)
    requires NonBlank(flag).None? && NonBlank(env).None?
    ensures TokenOf(op, clock, now, ResolveApiToken(flag, env, Left(op), clock, now))
  {
    if op.Save? {
      StoredCredentialDecides(flag, env, op.credential, clock, now);
    }
  }

  lemma {:induction false} TokenAfterHistory(ops: seq<Op>, done: seq<bool>, store: Store, name: string,
      flag: Option<string>, env: Option<string>, clock: Clock, now: int, r: Result<string, AuthError>)
    requires |ops| == |done| && NonBlank(flag).None? && NonBlank(env).None?
    requires r == ResolveApiToken(flag, env, Get(History(store, Succeeded(ops, done)), name), clock, now)
    ensures forall i: nat | LatestSuccess(ops, done, i, name) :: TokenOf(ops[i], clock, now, r)
    ensures NoSuccess(ops, done, name) && name !in store ==> r == Err(MissingToken)
  {
    forall i: nat | LatestSuccess(ops, done, i, name) ensures TokenOf(ops[i], clock, now, r) {
      LatestSuccessWins(store, ops, done, i, name);
      TokenOfLeft(ops[i], flag, env, clock, now);
    }
    if NoSuccess(ops, done, name) && name !in store {
      NoSuccessNoChange(store, ops, done, name);
      NothingStored(flag, env, clock, now);
    }
  }

  lemma {:induction false} NothingStored(flag: Option<string>, env: Option<string>, clock: Clock, now: int)
    requires NonBlank(flag).None? && NonBlank(env).None?
    ensures ResolveApiToken(flag, env, None, clock, now) == Err(MissingToken)
  {
  }

  /**
   Logins and logouts on a disk where any call may fail, then loading and resolving a profile's token: an
   explicit token wins, then one from the environment; with neither it is that of the latest login that
   succeeded, if no logout that succeeded followed and it is usable.
   */
  method ResolveAfter(disk: Disk, path: Path, codec: Codec, ops: seq<Op>, ids: seq<string>, profile: Option<string>,
      flag: Option<string>, env: Option<string>, clock: Clock, now: int)
    returns (done: seq<bool>, r: Result<Result<string, AuthError>, StoreError>)
    requires RoundTrips(codec) && |ids| == |ops| && Parses(disk.nodes, path, codec)
    modifies disk
    ensures |done| == |ops|
    ensures r.Ok? && flag.Some? && Trim(flag.value) != "" ==> r.value == Ok(Trim(flag.value))
    ensures r.Ok? && NonBlank(flag).None? && env.Some? && Trim(env.value) != "" ==> r.value == Ok(Trim(env.value))
    ensures r.Ok? && NonBlank(flag).None? && NonBlank(env).None? ==>
              var name := ProfileName(profile);
              && (forall i: nat | LatestSuccess(ops, done, i, name) :: TokenOf(ops[i], clock, now, r.value))
              && (NoSuccess(ops, done, name) && path !in old(disk.nodes) ==> r.value == Err(MissingToken))
    ensures disk.reliable ==> r.Ok?
    ensures disk.reliable && FreshNames(old(disk.nodes), path, ids) ==> AllDone(done)
  {
    ghost var start := Contents(disk.nodes, path, codec).value;
    done := PerformAll(disk, path, codec, ops, ids);
    var loaded := LoadFromPath(disk, path, codec, profile);
    if loaded.Err? { return done, Err(loaded.error); }
    r := Ok(ResolveApiToken(flag, env, loaded.value, clock, now));
    GivenTokenWins(flag, env, loaded.value, clock, now);
    if NonBlank(flag).None? && NonBlank(env).None? {
      TokenAfterHistory(ops, done, start, ProfileName(profile), flag, env, clock, now, r.value);
    }
  }
}
