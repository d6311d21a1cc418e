/**
 Many processes saving and deleting credentials in one file, without a lock. Each process reads the
 file, computes the store to write, and then runs an atomic write whose steps interleave with
 everyone else's. Updates can be lost this way; this module states what cannot happen, and exactly
 what a write that lands does to the store.
 */
module CredentialInterleavings {

  import opened Outcomes
  import opened Bytes
  import opened FileSystem
  import opened AtomicWrite
  import opened Credentials
  import opened CredentialFile

  /** A process that went on to write: its operation, and how many renames it had seen when it read. */
  datatype Begun = Begun(op: Op, version: nat)

  /** `begun[w]` belongs to writer `w` of the file system. */
  datatype System = System(fs: State, begun: seq<Begun>)

  datatype Event =
    | Begin(op: Op, tmp: Path)
    | Progress(step: Step)

  /** What a process makes of the file it reads. */
  function Reading(codec: Codec, content: Option<seq<Byte>>): (r: Option<Store>) {
    match content
    case None => Some(map[])
    case Some(bytes) => codec.parse(bytes)
  }

  /** The store a process writes if it reads the file now. */
  function ToWrite(codec: Codec, sys: System, op: Op): (r: Option<Store>) {
    var store := Reading(codec, Content(sys.fs));
    if store.None? then None else Effect(op, store.value)
  }

  predicate Possible(codec: Codec, sys: System, e: Event) {
    match e
    case Begin(_, tmp) => tmp != sys.fs.target
    case Progress(step) => !step.Spawn? && Enabled(sys.fs, step)
  }

  /** A process that cannot parse the file, or has nothing to remove, leaves without writing. */
  function Next(codec: Codec, sys: System, e: Event): (r: System)
    requires Possible(codec, sys, e)
  {
    match e
    case Begin(op, tmp) =>
      var next := ToWrite(codec, sys, op);
      if next.None? then sys
      else System(Apply(sys.fs, Spawn(codec.encode(next.value), true, tmp)), sys.begun + [Begun(op, |sys.fs.landed|)])
    case Progress(step) => System(Apply(sys.fs, step), sys.begun)
  }

  /** The process goes on to write exactly if the file parses and a profile is saved, or is there to be removed. */
  lemma {:induction false} WritesOnlyChanges(codec: Codec, sys: System, op: Op, tmp: Path)
    requires Possible(codec, sys, Begin(op, tmp))
    ensures var store, after := Reading(codec, Content(sys.fs)), Next(codec, sys, Begin(op, tmp));
            if store.Some? && (op.Save? || op.Name() in store.value) then
              && |after.fs.writers| == |sys.fs.writers| + 1 && after.fs.names == sys.fs.names
              && after.fs.writers[..|sys.fs.writers|] == sys.fs.writers
              && var w := after.fs.writers[|sys.fs.writers|];
              w.tmp == tmp && w.private
              && w.payload == codec.encode(
                                if op.Save? then store.value[op.Name() := op.credential] else store.value - {op.Name()})
            else after == sys
  {
  }

  ghost predicate Reaches(codec: Codec, sys: System, events: seq<Event>, end: System)
    decreases |events|
  {
    if events == [] then sys == end
    else Possible(codec, sys, events[0]) && Reaches(codec, Next(codec, sys, events[0]), events[1..], end)
  }

  ghost predicate Start(sys: System) { Initial(sys.fs) && sys.begun == [] }

  // ----- invariants -----

  predicate Saves(op: Op, name: string, c: Credential) { op.Save? && op.Name() == name && op.credential == c }

  /** The entry was in the file at the start, or some process set out to save it under that profile. */
  ghost predicate Known(codec: Codec, init: System, sys: System, name: string, c: Credential) {
    || (Reading(codec, Content(init.fs)).Some? && Get(Reading(codec, Content(init.fs)).value, name) == Some(c))
    || exists w :: 0 <= w < |sys.begun| && Saves(sys.begun[w].op, name, c)
  }

  ghost predicate AllKnown(codec: Codec, init: System, sys: System, store: Store) {
    forall name | name in store :: Known(codec, init, sys, name, store[name])
  }

  /** A writer's payload is its operation's effect on the version it read. */
  ghost predicate Faithful(codec: Codec, init: System, sys: System, w: nat)
    requires w < |sys.fs.writers| && w < |sys.begun|
  {
    var b := sys.begun[w];
    && b.version <= |sys.fs.landed|
    && var base := Reading(codec, Version(init.fs, sys.fs, b.version));
    && base.Some? && Effect(b.op, base.value).Some?
    && sys.fs.writers[w].payload == codec.encode(Effect(b.op, base.value).value)
    && sys.fs.writers[w].private
    && AllKnown(codec, init, sys, Effect(b.op, base.value).value)
  }

  /** A rename comes after the read it was computed from. */
  ghost predicate ReadBefore(sys: System) {
    forall j | 0 <= j < |sys.fs.landed| ::
      sys.fs.landed[j].writer < |sys.begun| && sys.begun[sys.fs.landed[j].writer].version <= j
  }

  ghost predicate Sound(codec: Codec, init: System, sys: System) {
    && Inv(init.fs, sys.fs)
    && |sys.begun| == |sys.fs.writers|
    && ReadBefore(sys)
    && forall w | 0 <= w < |sys.begun| :: Faithful(codec, init, sys, w)
  }

  lemma {:induction false} KnownStays(codec: Codec, init: System, sys: System, sys': System, store: Store)
    requires sys.begun <= sys'.begun && AllKnown(codec, init, sys, store)
    ensures AllKnown(codec, init, sys', store)
  {
    forall name | name in store ensures Known(codec, init, sys', name, store[name]) {
      assert Known(codec, init, sys, name, store[name]);
      if w :| 0 <= w < |sys.begun| && Saves(sys.begun[w].op, name, store[name]) {
        assert sys'.begun[w] == sys.begun[w];
      }
    }
  }

  /** Versions and payloads do not change once they exist. */
  ghost predicate Extends(fs: State, fs': State) {
    && |fs.writers| <= |fs'.writers|
    && (forall w | 0 <= w < |fs.writers| ::
          fs'.writers[w].payload == fs.writers[w].payload && fs'.writers[w].private == fs.writers[w].private)
    && fs.landed <= fs'.landed
  }

  lemma {:induction false} StepExtends(fs: State, step: Step)
    requires Enabled(fs, step)
    ensures Extends(fs, Apply(fs, step))
  {
  }

  lemma {:induction false} FaithfulStays(codec: Codec, init: System, sys: System, sys': System, w: nat)
    requires Inv(init.fs, sys.fs) && w < |sys.fs.writers| && w < |sys.begun| && Faithful(codec, init, sys, w)
    requires Extends(sys.fs, sys'.fs) && sys.begun <= sys'.begun
    ensures Faithful(codec, init, sys', w)
  {
    var b := sys.begun[w];
    if b.version > 0 {
      assert Settled(init.fs, sys.fs, sys.fs.landed[b.version - 1]);
    }
    assert Version(init.fs, sys'.fs, b.version) == Version(init.fs, sys.fs, b.version);
    KnownStays(codec, init, sys, sys', Effect(b.op, Reading(codec, Version(init.fs, sys.fs, b.version)).value).value);
  }

  /** Every version of the file that is readable holds only known entries. */
  lemma {:induction false} VersionIsKnown(codec: Codec, init: System, sys: System, n: nat)
    requires RoundTrips(codec) && Sound(codec, init, sys) && n <= |sys.fs.landed|
    ensures var r := Reading(codec, Version(init.fs, sys.fs, n));
            && (n > 0 ==> r.Some?)
            && (r.Some? ==> AllKnown(codec, init, sys, r.value))
  {
    if n > 0 {
      assert Settled(init.fs, sys.fs, sys.fs.landed[n - 1]);
      assert Faithful(codec, init, sys, sys.fs.landed[n - 1].writer);
    }
  }

  lemma {:induction false} EffectIsKnown(codec: Codec, init: System, sys: System, sys': System, op: Op, store: Store)
    requires AllKnown(codec, init, sys, store) && Effect(op, store).Some?
    requires sys'.begun == sys.begun + [Begun(op, |sys.fs.landed|)]
    ensures AllKnown(codec, init, sys', Effect(op, store).value)
  {
    KnownStays(codec, init, sys, sys', store);
    var next := Effect(op, store).value;
    forall name | name in next ensures Known(codec, init, sys', name, next[name]) {
      if op.Save? && name == op.Name() {
        assert sys'.begun[|sys.begun|].op == op;
      } else {
        assert name in store && next[name] == store[name];
      }
    }
  }

  /** An event changes the file system by at most one step. */
  function StepOf(codec: Codec, sys: System, e: Event): (r: Option<Step>) {
    match e
    case Begin(op, tmp) =>
      var next := ToWrite(codec, sys, op);
      if next.None? then None else Some(Spawn(codec.encode(next.value), true, tmp))
    case Progress(step) => Some(step)
  }

  lemma {:induction false} NextExtends(codec: Codec, init: System, sys: System, e: Event)
    requires Inv(init.fs, sys.fs) && Possible(codec, sys, e) && |sys.begun| == |sys.fs.writers|
    ensures var sys' := Next(codec, sys, e);
            && Inv(init.fs, sys'.fs) && Extends(sys.fs, sys'.fs)
            && sys.begun <= sys'.begun && |sys'.begun| == |sys'.fs.writers| <= |sys.begun| + 1
            && (|sys'.begun| > |sys.begun| ==> e.Begin? && ToWrite(codec, sys, e.op).Some?)
  {
    var step := StepOf(codec, sys, e);
    if step.Some? {
      StepKeepsInv(init.fs, sys.fs, step.value);
      StepExtends(sys.fs, step.value);
    }
  }

  lemma {:induction false} NextKeepsReadBefore(codec: Codec, init: System, sys: System, e: Event)
    requires Sound(codec, init, sys) && Possible(codec, sys, e)
    ensures ReadBefore(Next(codec, sys, e))
  {
    if e.Progress? && e.step.Rename? {
      assert Faithful(codec, init, sys, e.step.w);
    }
  }

  lemma {:induction false} NewcomerIsFaithful(codec: Codec, init: System, sys: System, e: Event)
    requires RoundTrips(codec) && Sound(codec, init, sys) && Possible(codec, sys, e) && e.Begin?
    requires ToWrite(codec, sys, e.op).Some?
    ensures Faithful(codec, init, Next(codec, sys, e), |sys.begun|)
  {
    var n := |sys.fs.landed|;
    var sys' := Next(codec, sys, e);
    ContentOfInv(init.fs, sys.fs);
    VersionIsKnown(codec, init, sys, n);
    if n > 0 {
      assert Settled(init.fs, sys.fs, sys.fs.landed[n - 1]);
    }
    assert Version(init.fs, sys'.fs, n) == Content(sys.fs);
    EffectIsKnown(codec, init, sys, sys', e.op, Reading(codec, Content(sys.fs)).value);
  }

  lemma {:induction false} SoundStays(codec: Codec, init: System, sys: System, sys': System)
    requires Sound(codec, init, sys) && Inv(init.fs, sys'.fs) && ReadBefore(sys')
    requires Extends(sys.fs, sys'.fs) && sys.begun <= sys'.begun && |sys'.begun| == |sys'.fs.writers| <= |sys.begun| + 1
    requires |sys'.begun| > |sys.begun| ==> Faithful(codec, init, sys', |sys.begun|)
    ensures Sound(codec, init, sys')
  {
    forall w: nat | w < |sys'.begun| ensures Faithful(codec, init, sys', w) {
      if w < |sys.begun| {
        assert Faithful(codec, init, sys, w);
        FaithfulStays(codec, init, sys, sys', w);
      } else {
        assert w == |sys.begun|;
      }
    }
  }

  lemma {:induction false} NextKeepsSound(codec: Codec, init: System, sys: System, e: Event)
    requires RoundTrips(codec) && Sound(codec, init, sys) && Possible(codec, sys, e)
    ensures Sound(codec, init, Next(codec, sys, e))
  {
    NextExtends(codec, init, sys, e);
    NextKeepsReadBefore(codec, init, sys, e);
    if e.Begin? && ToWrite(codec, sys, e.op).Some? {
      NewcomerIsFaithful(codec, init, sys, e);
    }
    SoundStays(codec, init, sys, Next(codec, sys, e));
  }

  lemma {:induction false} ReachedIsSound(codec: Codec, init: System, sys: System, events: seq<Event>, end: System)
    requires RoundTrips(codec) && Sound(codec, init, sys) && Reaches(codec, sys, events, end)
    ensures Sound(codec, init, end)
    decreases |events|
  {
    if events != [] {
      NextKeepsSound(codec, init, sys, events[0]);
      ReachedIsSound(codec, init, Next(codec, sys, events[0]), events[1..], end);
    }
  }

  lemma {:induction false} SoundFromStart(codec: Codec, init: System, events: seq<Event>, sys: System)
    requires RoundTrips(codec) && Start(init) && Reaches(codec, init, events, sys)
    ensures Sound(codec, init, sys)
  {
    InitialInv(init.fs);
    ReachedIsSound(codec, init, init, events, sys);
  }

  // ----- what every interleaving guarantees -----

  /**
   The file always parses as a store once anything was written, and every entry in it was there
   at the start or was saved under that profile by some process.
   */
  lemma {:induction false} NoInventedEntries(codec: Codec, init: System, events: seq<Event>, sys: System)
    requires RoundTrips(codec) && Start(init) && Reaches(codec, init, events, sys)
    ensures var r := Reading(codec, Content(sys.fs));
            && (Content(sys.fs) != Content(init.fs) ==> r.Some?)
            && (r.Some? ==> AllKnown(codec, init, sys, r.value))
  {
    SoundFromStart(codec, init, events, sys);
    ContentOfInv(init.fs, sys.fs);
    VersionIsKnown(codec, init, sys, |sys.fs.landed|);
  }

  lemma {:induction false} LastWriterIsPrivate(codec: Codec, init: System, sys: System)
    requires Sound(codec, init, sys) && sys.fs.landed != []
    ensures var w := sys.fs.landed[|sys.fs.landed| - 1].writer; w < |sys.fs.writers| && sys.fs.writers[w].private
  {
    var w := sys.fs.landed[|sys.fs.landed| - 1].writer;
    assert w < |sys.begun|;
    assert Faithful(codec, init, sys, w);
  }

  lemma {:induction false} LandedPrivately(init: State, st: State)
    requires Inv(init, st) && st.landed != []
    requires var w := st.landed[|st.landed| - 1].writer; w < |st.writers| && st.writers[w].private
    ensures st.target in st.names && st.names[st.target] < |st.inodes| && OwnerOnly(st.inodes[st.names[st.target]].mode)
  {
    var l := st.landed[|st.landed| - 1];
    assert Settled(init, st, l) && Made(init, st, l.inode);
  }

  /** Once written, the file is readable by its owner only. */
  lemma {:induction false} StoreStaysPrivate(codec: Codec, init: System, events: seq<Event>, sys: System)
    requires RoundTrips(codec) && Start(init) && Reaches(codec, init, events, sys) && sys.fs.landed != []
    ensures sys.fs.target in sys.fs.names && sys.fs.names[sys.fs.target] < |sys.fs.inodes|
    ensures OwnerOnly(sys.fs.inodes[sys.fs.names[sys.fs.target]].mode)
  {
    SoundFromStart(codec, init, events, sys);
    LastWriterIsPrivate(codec, init, sys);
    LandedPrivately(init.fs, sys.fs);
  }

  /** A file that does not parse is never overwritten. */
  lemma {:induction false} UnparsableFileIsKept(codec: Codec, init: System, events: seq<Event>, sys: System)
    requires RoundTrips(codec) && Start(init) && Reaches(codec, init, events, sys)
    requires Reading(codec, Content(init.fs)).None?
    ensures Content(sys.fs) == Content(init.fs) && sys.begun == []
  {
    SoundFromStart(codec, init, events, sys);
    ContentOfInv(init.fs, sys.fs);
    NobodyBegins(codec, init, sys);
  }

  lemma {:induction false} StartWasReadable(codec: Codec, init: System, sys: System)
    requires Sound(codec, init, sys) && sys.begun != []
    ensures Reading(codec, Content(init.fs)).Some?
  {
    var w := if sys.fs.landed == [] then 0 else sys.fs.landed[0].writer;
    assert Faithful(codec, init, sys, w);
  }

  lemma {:induction false} NobodyBegins(codec: Codec, init: System, sys: System)
    requires Sound(codec, init, sys) && Reading(codec, Content(init.fs)).None?
    ensures sys.begun == [] && sys.fs.landed == []
  {
    if sys.begun != [] {
      StartWasReadable(codec, init, sys);
    }
  }

  /** The store after a number of renames. */
  function StoreAt(codec: Codec, init: System, sys: System, n: nat): (r: Option<Store>)
    requires n <= |sys.fs.landed|
  {
    Reading(codec, Version(init.fs, sys.fs, n))
  }

  /**
   Each write that lands replaces the store by its operation's effect on the store it had read,
   which may be an older one.
   */
  lemma {:induction false} LandingAppliesToWhatWasRead(codec: Codec, init: System, events: seq<Event>, sys: System,
      j: nat)
    requires RoundTrips(codec) && Start(init) && Reaches(codec, init, events, sys) && j < |sys.fs.landed|
    ensures sys.fs.landed[j].writer < |sys.begun|
    ensures var b := sys.begun[sys.fs.landed[j].writer];
            && b.version <= j
            && StoreAt(codec, init, sys, b.version).Some?
            && StoreAt(codec, init, sys, j + 1) == Effect(b.op, StoreAt(codec, init, sys, b.version).value)
  {
    SoundFromStart(codec, init, events, sys);
    var l := sys.fs.landed[j];
    assert Settled(init.fs, sys.fs, l) && Faithful(codec, init, sys, l.writer);
  }

  /** A write that no other rename overtook is atomic: it applies to the current store. */
  lemma {:induction false} UndisturbedWriteIsAtomic(codec: Codec, init: System, events: seq<Event>, sys: System, j: nat)
    requires RoundTrips(codec) && Start(init) && Reaches(codec, init, events, sys) && j < |sys.fs.landed|
    requires sys.fs.landed[j].writer < |sys.begun| && sys.begun[sys.fs.landed[j].writer].version == j
    ensures StoreAt(codec, init, sys, j).Some?
    ensures StoreAt(codec, init, sys, j + 1)
            == Some(Applied(sys.begun[sys.fs.landed[j].writer].op, StoreAt(codec, init, sys, j).value))
  {
    LandingAppliesToWhatWasRead(codec, init, events, sys, j);
    SoundFromStart(codec, init, events, sys);
    assert Faithful(codec, init, sys, sys.fs.landed[j].writer);
  }

  /** The stores hold the same entries, except perhaps under one name. */
  ghost predicate SameOff(name: string, a: Store, b: Store) {
    forall other | other != name :: Get(a, other) == Get(b, other)
  }

  lemma {:induction false} EffectAgreesIff(op: Op, a: Store, b: Store)
    requires Effect(op, a).Some?
    ensures Effect(op, a).value == Applied(op, b) <==> SameOff(op.Name(), a, b)
  {
    var x, y := Effect(op, a).value, Applied(op, b);
    forall n ensures Get(x, n) == (if n == op.Name() then Left(op) else Get(a, n))
             ensures Get(y, n) == (if n == op.Name() then Left(op) else Get(b, n)) {
      AppliedAt(op, a, n);
      AppliedAt(op, b, n);
    }
    if SameOff(op.Name(), a, b) {
      SameEntries(x, y);
    }
  }

  /**
   A write that lands applies its operation to the current store exactly when no entry of another
   profile differs between that store and the one it had read.
   */
  lemma {:induction false} LandingIsAtomicIff(codec: Codec, init: System, events: seq<Event>, sys: System, j: nat)
    requires RoundTrips(codec) && Start(init) && Reaches(codec, init, events, sys) && j < |sys.fs.landed|
    ensures sys.fs.landed[j].writer < |sys.begun|
    ensures var b := sys.begun[sys.fs.landed[j].writer];
            && b.version <= j && StoreAt(codec, init, sys, b.version).Some? && StoreAt(codec, init, sys, j).Some?
            && var read, current := StoreAt(codec, init, sys, b.version).value, StoreAt(codec, init, sys, j).value;
               (StoreAt(codec, init, sys, j + 1) == Some(Applied(b.op, current)) <==>
                  SameOff(b.op.Name(), read, current))
  {
    LandingAppliesToWhatWasRead(codec, init, events, sys, j);
    SoundFromStart(codec, init, events, sys);
    assert Faithful(codec, init, sys, sys.fs.landed[j].writer);
    StartWasReadable(codec, init, sys);
    VersionIsKnown(codec, init, sys, j);
    var b := sys.begun[sys.fs.landed[j].writer];
    EffectAgreesIff(b.op, StoreAt(codec, init, sys, b.version).value, StoreAt(codec, init, sys, j).value);
  }

  /** The operations of the writes that landed, in order. */
  function LandedOps(sys: System, n: nat): (ops: seq<Op>)
    requires n <= |sys.fs.landed| && forall j | 0 <= j < n :: sys.fs.landed[j].writer < |sys.begun|
  {
    seq(n, j requires 0 <= j < n => sys.begun[sys.fs.landed[j].writer].op)
  }

  lemma LandedOpsOneMore(sys: System, n: nat)
    requires 0 < n <= |sys.fs.landed| && forall j | 0 <= j < n :: sys.fs.landed[j].writer < |sys.begun|
    ensures LandedOps(sys, n) == LandedOps(sys, n - 1) + [sys.begun[sys.fs.landed[n - 1].writer].op]
  {
  }

  /** When every write reads what the one before it left, the run is the sequential history of those writes. */
  lemma {:induction false} UndisturbedRunIsSequential(codec: Codec, init: System, events: seq<Event>, sys: System,
      n: nat)
    requires RoundTrips(codec) && Start(init) && Reaches(codec, init, events, sys) && n <= |sys.fs.landed|
    requires Reading(codec, Content(init.fs)).Some?
    requires forall j | 0 <= j < n ::
               sys.fs.landed[j].writer < |sys.begun| && sys.begun[sys.fs.landed[j].writer].version == j
    ensures StoreAt(codec, init, sys, n) == Some(History(Reading(codec, Content(init.fs)).value, LandedOps(sys, n)))
  {
    if n > 0 {
      var ops, op := LandedOps(sys, n - 1), sys.begun[sys.fs.landed[n - 1].writer].op;
      UndisturbedRunIsSequential(codec, init, events, sys, n - 1);
      UndisturbedWriteIsAtomic(codec, init, events, sys, n - 1);
      LandedOpsOneMore(sys, n);
      HistoryOneMore(Reading(codec, Content(init.fs)).value, ops, op);
    }
  }

  /**
   Two saves of different profiles that read the same version and land one after the other: both
   succeed, and the first one's profile is back to what it was before either.
   */
  lemma {:induction false} OvertakenSaveIsLost(codec: Codec, init: System, events: seq<Event>, sys: System, j: nat)
    requires RoundTrips(codec) && Start(init) && Reaches(codec, init, events, sys) && j + 1 < |sys.fs.landed|
    requires sys.fs.landed[j].writer < |sys.begun| && sys.fs.landed[j + 1].writer < |sys.begun|
    requires var first, second := sys.begun[sys.fs.landed[j].writer], sys.begun[sys.fs.landed[j + 1].writer];
             && first.version == second.version == j && first.op.Save? && second.op.Save?
             && first.op.Name() != second.op.Name()
    ensures var name := sys.begun[sys.fs.landed[j].writer].op.Name();
            && StoreAt(codec, init, sys, j).Some? && StoreAt(codec, init, sys, j + 2).Some?
            && Get(StoreAt(codec, init, sys, j + 2).value, name) == Get(StoreAt(codec, init, sys, j).value, name)
  {
    LandingAppliesToWhatWasRead(codec, init, events, sys, j);
    LandingAppliesToWhatWasRead(codec, init, events, sys, j + 1);
  }

  // ----- updates can be lost -----

  lemma {:induction false} ReachesOneMore(codec: Codec, sys: System, events: seq<Event>, mid: System, e: Event)
    requires Reaches(codec, sys, events, mid) && Possible(codec, mid, e)
    ensures Reaches(codec, sys, events + [e], Next(codec, mid, e))
    decreases |events|
  {
    if events == [] {
      assert events + [e] == [e] && [e][1..] == [];
    } else {
      assert (events + [e])[0] == events[0] && (events + [e])[1..] == events[1..] + [e];
      ReachesOneMore(codec, Next(codec, sys, events[0]), events[1..], mid, e);
    }
  }

  lemma {:induction false} ProgressMore(codec: Codec, init: System, events: seq<Event>, sys: System, step: Step)
      returns (more: seq<Event>, sys': System)
    requires Reaches(codec, init, events, sys) && !step.Spawn? && Enabled(sys.fs, step)
    ensures Reaches(codec, init, more, sys') && sys' == System(Apply(sys.fs, step), sys.begun)
  {
    ReachesOneMore(codec, init, events, sys, Progress(step));
    more, sys' := events + [Progress(step)], Next(codec, sys, Progress(step));
  }

  /** A writer that meets no failure lands. */
  lemma {:induction false} WriteRuns(codec: Codec, init: System, events: seq<Event>, sys: System, w: nat)
      returns (more: seq<Event>, sys': System)
    requires Reaches(codec, init, events, sys) && Inv(init.fs, sys.fs)
    requires w < |sys.fs.writers| && sys.fs.writers[w].phase.Starting? && sys.fs.writers[w].tmp !in sys.fs.names
    requires sys.fs.writers[w].payload != [] && sys.fs.writers[w].tmp != sys.fs.target
    ensures Reaches(codec, init, more, sys') && sys'.begun == sys.begun
    ensures sys'.fs.target == sys.fs.target && sys'.fs.landed == sys.fs.landed + [Landing(w, |sys.fs.inodes|)]
    ensures sys'.fs.writers == sys.fs.writers[w := sys.fs.writers[w].(phase := Done)]
    ensures sys'.fs.names.Keys == sys.fs.names.Keys + {sys.fs.target}
  {
    var wr, i := sys.fs.writers[w], |sys.fs.inodes|;
    more, sys' := ProgressMore(codec, init, events, sys, Create(w, {}));
    more, sys' := ProgressMore(codec, init, more, sys', WriteSome(w, |wr.payload|));
    more, sys' := ProgressMore(codec, init, more, sys', WriteDone(w));
    more, sys' := ProgressMore(codec, init, more, sys', Sync(w));
    more, sys' := ProgressMore(codec, init, more, sys', Rename(w));
  }

  lemma InvOfRun(codec: Codec, init: System, events: seq<Event>, sys: System)
    requires RoundTrips(codec) && Start(init) && Reaches(codec, init, events, sys)
    ensures Inv(init.fs, sys.fs)
  {
    SoundFromStart(codec, init, events, sys);
  }

  lemma {:induction false} LastLandingShows(codec: Codec, init: System, sys: System, w: nat, store: Store)
    requires RoundTrips(codec) && Inv(init.fs, sys.fs) && sys.fs.landed != []
    requires sys.fs.landed[|sys.fs.landed| - 1].writer == w && w < |sys.fs.writers|
    requires sys.fs.writers[w].payload == codec.encode(store)
    ensures Reading(codec, Content(sys.fs)) == Some(store)
  {
    ContentOfInv(init.fs, sys.fs);
  }

  /** Two processes that save find no file. */
  lemma {:induction false} BothBegin(codec: Codec, target: Path, t1: Path, t2: Path, first: Op, second: Op)
      returns (init: System, events: seq<Event>, sys: System)
    requires target != t1 && target != t2 && first.Save? && second.Save?
    ensures Start(init) && Reaches(codec, init, events, sys)
    ensures sys.begun == [Begun(first, 0), Begun(second, 0)]
    ensures sys.fs == State(target, map[], [],
                            [Writer(codec.encode(map[first.Name() := first.credential]), true, t1, Starting),
                             Writer(codec.encode(map[second.Name() := second.credential]), true, t2, Starting)], [])
  {
    init := System(State(target, map[], [], [], []), []);
    var sys1 := Next(codec, init, Begin(first, t1));
    sys := Next(codec, sys1, Begin(second, t2));
    events := [] + [Begin(first, t1)] + [Begin(second, t2)];
    ReachesOneMore(codec, init, [], init, Begin(first, t1));
    ReachesOneMore(codec, init, [] + [Begin(first, t1)], sys1, Begin(second, t2));
  }

  /** Two writers with different temporaries land one after the other. */
  lemma {:induction false} BothLand(codec: Codec, init: System, events: seq<Event>, sys: System)
      returns (more: seq<Event>, end: System)
    requires RoundTrips(codec) && Start(init) && Reaches(codec, init, events, sys)
    requires sys.fs.names == map[] && |sys.fs.writers| == 2
    requires sys.fs.writers[0].tmp != sys.fs.writers[1].tmp
    requires forall w | 0 <= w < 2 ::
               var wr := sys.fs.writers[w]; wr.phase.Starting? && wr.payload != [] && wr.tmp != sys.fs.target
    ensures Reaches(codec, init, more, end) && end.begun == sys.begun
    ensures |end.fs.writers| == 2 && end.fs.writers[0].phase == Done && end.fs.writers[1].phase == Done
    ensures end.fs.writers[1].payload == sys.fs.writers[1].payload
    ensures end.fs.landed != [] && end.fs.landed[|end.fs.landed| - 1].writer == 1
  {
    InvOfRun(codec, init, events, sys);
    var mid: System;
    more, mid := WriteRuns(codec, init, events, sys, 0);
    InvOfRun(codec, init, more, mid);
    assert mid.fs.writers[1] == sys.fs.writers[1];
    more, end := WriteRuns(codec, init, more, mid, 1);
  }

  /** From no file at all, two saves of different profiles can both succeed and leave only the second. */
  lemma {:induction false} UpdatesCanBeLost(codec: Codec, target: Path, t1: Path, t2: Path, first: Op, second: Op)
      returns (init: System, events: seq<Event>, sys: System)
    requires RoundTrips(codec) && forall s :: codec.encode(s) != []
    requires target != t1 && target != t2 && t1 != t2
    requires first.Save? && second.Save? && first.Name() != second.Name()
    ensures Start(init) && Reaches(codec, init, events, sys)
    ensures |sys.begun| == 2 && sys.begun[0].op == first && sys.begun[1].op == second
    ensures |sys.fs.writers| == 2 && sys.fs.writers[0].phase == Done && sys.fs.writers[1].phase == Done
    ensures Reading(codec, Content(sys.fs)) == Some(map[second.Name() := second.credential])
  {
    var begun: System;
    init, events, begun := BothBegin(codec, target, t1, t2, first, second);
    events, sys := BothLand(codec, init, events, begun);
    InvOfRun(codec, init, events, sys);
    LastLandingShows(codec, init, sys, 1, map[second.Name() := second.credential]);
  }
}
