/**
 A file system in which every operation may fail. Failure is decided by the environment; an
 operation succeeds only when its own conditions hold. A ghost trace records every state passed.
 */
module FileSystem {

  import opened Bytes
  import opened Outcomes

  /** A path: the directory it is in, and its last component. */
  datatype Path = Path(dir: string, name: string)

  datatype Node = File(data: seq<Byte>, mode: nat) | Directory

  type Snapshot = map<Path, Node>

  /** Two states differ at most in the given paths. */
  ghost predicate AgreeOff(s: Snapshot, t: Snapshot, ps: set<Path>) {
    forall p | p !in ps :: (p in s <==> p in t) && (p in s ==> s[p] == t[p])
  }

  /** The file holds a part of the bytes, from their start. */
  ghost predicate HoldsPart(s: Snapshot, p: Path, bytes: seq<Byte>) {
    p in s && s[p].File? && s[p].data <= bytes
  }

  predicate HoldsFile(s: Snapshot, p: Path) { p in s && s[p].File? }

  /** A file does not replace a directory. */
  predicate CanRename(s: Snapshot, from: Path, to: Path) {
    from in s && !(to in s && s[to].Directory? && s[from].File?)
  }

  /** A call that fails although nothing stands in its way is one fault. */
  function Faults(possible: bool, ok: bool): (n: nat) { if possible && !ok then 1 else 0 }

  class Disk {
    var nodes: Snapshot
    ghost var trace: seq<Snapshot>

    /** Paths whose file may hold bytes that have not been synced. */
    ghost var dirty: set<Path>

    /** How many calls failed without a reason of their own. */
    ghost var faults: nat

    /** A reliable disk has no faults. */
    const reliable: bool

    constructor (initial: Snapshot, reliable: bool)
      ensures nodes == initial && trace == [] && dirty == {} && faults == 0 && this.reliable == reliable
    {
      nodes := initial;
      trace := [];
      dirty := {};
      faults := 0;
      this.reliable := reliable;
    }

    method RemoveFile(p: Path) returns (ok: bool)
      modifies this
      ensures ok ==> HoldsFile(old(nodes), p)
      ensures faults == old(faults) + Faults(HoldsFile(old(nodes), p), ok)
      ensures reliable ==> faults == old(faults)
      ensures nodes == (if ok then old(nodes) - {p} else old(nodes)) && dirty == old(dirty)
      ensures trace == old(trace) + [nodes]
    {
      ok := *;
      ok := (ok || reliable) && HoldsFile(nodes, p);
      faults := faults + Faults(HoldsFile(nodes, p), ok);
      if ok {
        nodes := nodes - {p};
      }
      trace := trace + [nodes];
    }

    method CreateNew(p: Path, mode: nat) returns (ok: bool)
      modifies this
      ensures ok ==> p !in old(nodes)
      ensures faults == old(faults) + Faults(p !in old(nodes), ok)
      ensures reliable ==> faults == old(faults)
      ensures nodes == if ok then old(nodes)[p := File([], mode)] else old(nodes)
      ensures dirty == old(dirty) + {p}
      ensures trace == old(trace) + [nodes]
    {
      ok := *;
      ok := (ok || reliable) && p !in nodes;
      dirty := dirty + {p};
      faults := faults + Faults(p !in nodes, ok);
      if ok {
        nodes := nodes[p := File([], mode)];
      }
      trace := trace + [nodes];
    }

    /** `write_all` on an open file: any number of short writes, stopping early on an error. */
    method WriteAll(p: Path, bytes: seq<Byte>) returns (ok: bool)
      requires p in nodes && nodes[p].File? && nodes[p].data == []
      modifies this
      ensures p in nodes && nodes[p].File? && nodes[p].data <= bytes
      ensures ok ==> nodes[p].data == bytes
      ensures faults == old(faults) + Faults(true, ok)
      ensures reliable ==> ok
      ensures nodes == old(nodes)[p := File(nodes[p].data, old(nodes)[p].mode)] && dirty == old(dirty) + {p}
      ensures old(trace) <= trace
      ensures forall k | |old(trace)| <= k < |trace| ::
                AgreeOff(trace[k], old(nodes), {p}) && HoldsPart(trace[k], p, bytes)
    {
      var written := 0;
      dirty := dirty + {p};
      ok := true;
      while ok && written < |bytes|
        invariant 0 <= written <= |bytes|
        invariant p in nodes && nodes[p] == File(bytes[..written], old(nodes)[p].mode)
        invariant nodes == old(nodes)[p := nodes[p]] && faults == old(faults)
        invariant dirty == old(dirty) + {p}
        invariant reliable ==> ok
        invariant old(trace) <= trace
        invariant forall k | |old(trace)| <= k < |trace| ::
                    AgreeOff(trace[k], old(nodes), {p}) && HoldsPart(trace[k], p, bytes)
        decreases |bytes| - written, ok
      {
        var n: int := *;
        if reliable && !(0 < n <= |bytes| - written) {
          n := 1;
        }
        if 0 < n <= |bytes| - written {
          written := written + n;
          nodes := nodes[p := File(bytes[..written], nodes[p].mode)];
          trace := trace + [nodes];
        } else {
          ok := false;
        }
      }
      faults := faults + Faults(true, ok);
    }

    /** `sync_all`; a sync alone does not show. */
    method Sync(p: Path) returns (ok: bool)
      modifies this
      ensures faults == old(faults) + Faults(p in nodes, ok) && (ok ==> p in nodes)
      ensures reliable ==> faults == old(faults)
      ensures nodes == old(nodes) && trace == old(trace) && dirty == if ok then old(dirty) - {p} else old(dirty)
    {
      ok := *;
      ok := (ok || reliable) && p in nodes;
      if ok { dirty := dirty - {p}; }
      faults := faults + Faults(p in nodes, ok);
    }

    /** Looks a path up, and says whether a file is there. */
    method Metadata(p: Path) returns (isFile: Option<bool>)
      modifies this
      ensures faults == old(faults) + Faults(p in nodes, isFile.Some?)
      ensures isFile.Some? ==> p in nodes && isFile.value == nodes[p].File?
      ensures reliable ==> faults == old(faults)
      ensures nodes == old(nodes) && trace == old(trace) && dirty == old(dirty)
    {
      var ok: bool := *;
      isFile := if (ok || reliable) && p in nodes then Some(nodes[p].File?) else None;
      faults := faults + Faults(p in nodes, isFile.Some?);
    }

    method SetMode(p: Path, mode: nat) returns (ok: bool)
      modifies this
      ensures ok ==> HoldsFile(old(nodes), p)
      ensures faults == old(faults) + Faults(HoldsFile(old(nodes), p), ok)
      ensures reliable ==> faults == old(faults)
      ensures nodes == if ok then old(nodes)[p := File(old(nodes)[p].data, mode)] else old(nodes)
      ensures dirty == old(dirty)
      ensures trace == old(trace) + [nodes]
    {
      ok := *;
      ok := (ok || reliable) && HoldsFile(nodes, p);
      faults := faults + Faults(HoldsFile(nodes, p), ok);
      if ok {
        nodes := nodes[p := File(nodes[p].data, mode)];
      }
      trace := trace + [nodes];
    }

    /** Replaces the destination in one step. */
    method Rename(from: Path, to: Path) returns (ok: bool)
      requires from != to
      modifies this
      ensures ok ==> CanRename(old(nodes), from, to)
      ensures faults == old(faults) + Faults(CanRename(old(nodes), from, to), ok)
      ensures reliable ==> faults == old(faults)
      ensures nodes == if ok then (old(nodes) - {from})[to := old(nodes)[from]] else old(nodes)
      ensures dirty == if !ok then old(dirty) else if from in old(dirty) then old(dirty) + {to} else old(dirty) - {to}
      ensures trace == old(trace) + [nodes]
    {
      ok := *;
      ok := (ok || reliable) && CanRename(nodes, from, to);
      faults := faults + Faults(CanRename(nodes, from, to), ok);
      if ok {
        nodes := (nodes - {from})[to := nodes[from]];
        dirty := if from in dirty then dirty + {to} else dirty - {to};
      }
      trace := trace + [nodes];
    }
  }
}
