/**
 Atomic file replacement as a step system: any number of writers to one path, interleaved in any
 way, with any step failing and any writer crashing. Writers draw temporary names freely, so two
 may draw the same one.
 */
module AtomicWrite {

  import opened Outcomes
  import opened Bytes
  import opened FileSystem

  datatype Permission = OwnerRead | OwnerWrite | GroupRead | GroupWrite | OthersRead | OthersWrite

  /** Mode 0600. */
  const PRIVATE_FILE_MODE := {OwnerRead, OwnerWrite}

  /** Mode 0666, what a file is created with when no mode is asked for. */
  const PLAIN_FILE_MODE := {OwnerRead, OwnerWrite, GroupRead, GroupWrite, OthersRead, OthersWrite}

  predicate OwnerOnly(mode: set<Permission>) { forall p | p in mode :: p.OwnerRead? || p.OwnerWrite? }

  /** File contents; `creator` is the writer that made the file, none for files there at the start. */
  datatype Inode = Inode(data: seq<Byte>, synced: bool, mode: set<Permission>, creator: Option<nat>)

  /** Where a writer stands; the number is the inode behind its open handle. */
  datatype Phase =
    | Starting
    | Writing(inode: nat, written: nat)
    | Written(inode: nat)
    | Synced(inode: nat)
    | CleaningUp(inode: nat)
    | Done
    | Failed(leaked: bool)
    | Crashed(leaked: bool)

  datatype Writer = Writer(payload: seq<Byte>, private: bool, tmp: Path, phase: Phase)
  {
    function Handle(): (i: Option<nat>) {
      match phase
      case Writing(i, _) => Some(i)
      case Written(i) => Some(i)
      case Synced(i) => Some(i)
      case CleaningUp(i) => Some(i)
      case _ => None
    }
  }

  /** A completed rename: which writer, and which file it put at the target. */
  datatype Landing = Landing(writer: nat, inode: nat)

  datatype State = State(
    target: Path,
    names: map<Path, nat>,
    inodes: seq<Inode>,
    writers: seq<Writer>,
    landed: seq<Landing>)      // renames onto the target, in order

  datatype Step =
    | Spawn(payload: seq<Byte>, private: bool, tmp: Path)
    | Create(w: nat, umask: set<Permission>)
    | CreateError(w: nat)
    | WriteSome(w: nat, count: nat)
    | WriteDone(w: nat)
    | WriteError(w: nat)
    | Sync(w: nat)
    | SyncError(w: nat)
    | Rename(w: nat)
    | RenameError(w: nat)
    | Remove(w: nat)
    | RemoveError(w: nat)
    | Crash(w: nat)

  function Moved(st: State, w: nat, phase: Phase): (r: State)
    requires w < |st.writers|
  {
    st.(writers := st.writers[w := st.writers[w].(phase := phase)])
  }

  function Mode(private: bool, umask: set<Permission>): (m: set<Permission>) {
    (if private then PRIVATE_FILE_MODE else PLAIN_FILE_MODE) - umask
  }

  predicate Enabled(st: State, step: Step) {
    match step
    case Spawn(_, _, tmp) => tmp != st.target
    case Create(w, _) => w < |st.writers| && st.writers[w].phase.Starting? && st.writers[w].tmp !in st.names
    case CreateError(w) => w < |st.writers| && st.writers[w].phase.Starting?
    case WriteSome(w, n) =>
      && w < |st.writers| && st.writers[w].phase.Writing?
      && 0 < n <= |st.writers[w].payload| - st.writers[w].phase.written && st.writers[w].phase.inode < |st.inodes|
    case WriteDone(w) =>
      w < |st.writers| && st.writers[w].phase.Writing? && st.writers[w].phase.written == |st.writers[w].payload|
    case WriteError(w) => w < |st.writers| && st.writers[w].phase.Writing?
    case Sync(w) => w < |st.writers| && st.writers[w].phase.Written? && st.writers[w].phase.inode < |st.inodes|
    case SyncError(w) => w < |st.writers| && st.writers[w].phase.Written?
    case Rename(w) => w < |st.writers| && st.writers[w].phase.Synced? && st.writers[w].tmp in st.names
    case RenameError(w) => w < |st.writers| && st.writers[w].phase.Synced?
    case Remove(w) => w < |st.writers| && st.writers[w].phase.CleaningUp? && st.writers[w].tmp in st.names
    case RemoveError(w) => w < |st.writers| && st.writers[w].phase.CleaningUp?
    case Crash(w) => w < |st.writers|
  }

  /** Renames and removals act on the name, writes and syncs on the open handle. */
  function Apply(st: State, step: Step): (r: State)
    requires Enabled(st, step)
  {
    match step
    case Spawn(payload, private, tmp) => st.(writers := st.writers + [Writer(payload, private, tmp, Starting)])
    case Create(w, umask) =>
      var i := |st.inodes|;
      var made := Inode([], false, Mode(st.writers[w].private, umask), Some(w));
      Moved(st.(names := st.names[st.writers[w].tmp := i], inodes := st.inodes + [made]), w, Writing(i, 0))
    case CreateError(w) => Moved(st, w, Failed(false))
    case WriteSome(w, n) =>
      var i, k := st.writers[w].phase.inode, st.writers[w].phase.written;
      var more := st.writers[w].payload[k..k + n];
      var longer := st.inodes[i].(data := st.inodes[i].data + more, synced := false);
      Moved(st.(inodes := st.inodes[i := longer]), w, Writing(i, k + n))
    case WriteDone(w) => Moved(st, w, Written(st.writers[w].phase.inode))
    case WriteError(w) => Moved(st, w, CleaningUp(st.writers[w].phase.inode))
    case Sync(w) =>
      var i := st.writers[w].phase.inode;
      Moved(st.(inodes := st.inodes[i := st.inodes[i].(synced := true)]), w, Synced(i))
    case SyncError(w) => Moved(st, w, CleaningUp(st.writers[w].phase.inode))
    case Rename(w) =>
      var i := st.names[st.writers[w].tmp];
      var names := (st.names - {st.writers[w].tmp})[st.target := i];
      Moved(st.(names := names, landed := st.landed + [Landing(w, i)]), w, Done)
    case RenameError(w) => Moved(st, w, CleaningUp(st.writers[w].phase.inode))
    case Remove(w) => Moved(st.(names := st.names - {st.writers[w].tmp}), w, Failed(false))
    case RemoveError(w) => Moved(st, w, Failed(true))
    case Crash(w) =>
      if st.writers[w].phase.Done? || st.writers[w].phase.Failed? || st.writers[w].phase.Crashed? then st
      else Moved(st, w, Crashed(st.writers[w].Handle().Some?))
  }

  /** A run of the system: the steps that are enabled, applied in order. */
  ghost predicate Runs(st: State, steps: seq<Step>, end: State)
    decreases |steps|
  {
    if steps == [] then st == end
    else Enabled(st, steps[0]) && Runs(Apply(st, steps[0]), steps[1..], end)
  }

  /** A start: no writers yet, and names that refer to files. */
  ghost predicate Initial(st: State) {
    && st.writers == [] && st.landed == []
    && (forall p | p in st.names :: st.names[p] < |st.inodes|)
    && (forall i | 0 <= i < |st.inodes| :: st.inodes[i].creator.None?)
  }

  // ----- invariants -----

  /** A writer between creation and rename owns its temporary name and the file behind it. */
  ghost predicate Owns(init: State, st: State, w: nat)
    requires w < |st.writers|
  {
    var wr := st.writers[w];
    && wr.tmp != st.target
    && (wr.Handle().Some? ==>
          var i := wr.Handle().value;
          && |init.inodes| <= i < |st.inodes| && st.inodes[i].creator == Some(w)
          && wr.tmp in st.names && st.names[wr.tmp] == i)
  }

  /** What the file behind an open handle holds. */
  ghost predicate Holds(st: State, w: nat)
    requires w < |st.writers|
  {
    var wr := st.writers[w];
    match wr.phase
    case Writing(i, k) => i < |st.inodes| && k <= |wr.payload| && st.inodes[i].data == wr.payload[..k]
    case Written(i) => i < |st.inodes| && st.inodes[i].data == wr.payload
    case Synced(i) => i < |st.inodes| && st.inodes[i].data == wr.payload && st.inodes[i].synced
    case _ => true
  }

  /** A file made during the run belongs to one writer, has its mode, and holds a prefix of its payload. */
  ghost predicate Made(init: State, st: State, i: nat)
    requires i < |st.inodes|
  {
    if i < |init.inodes| then st.inodes[i] == init.inodes[i]
    else
      && st.inodes[i].creator.Some? && st.inodes[i].creator.value < |st.writers|
      && var wr := st.writers[st.inodes[i].creator.value];
      && st.inodes[i].data <= wr.payload
      && (wr.private ==> OwnerOnly(st.inodes[i].mode))
  }

  /** A file that landed is complete and synced, and its writer is finished. */
  ghost predicate Settled(init: State, st: State, l: Landing) {
    && l.writer < |st.writers| && st.writers[l.writer].phase == Done
    && |init.inodes| <= l.inode < |st.inodes|
    && st.inodes[l.inode].creator == Some(l.writer)
    && st.inodes[l.inode].data == st.writers[l.writer].payload && st.inodes[l.inode].synced
  }

  /** A name other than the target is as at the start, or is a temporary of one writer. */
  ghost predicate Named(init: State, st: State, p: Path) {
    && (p in init.names && p != st.target ==> p in st.names && st.names[p] == init.names[p])
    && (p in st.names ==> st.names[p] < |st.inodes|)
    && (p in st.names && p != st.target && p !in init.names ==>
          |init.inodes| <= st.names[p] && st.inodes[st.names[p]].creator.Some?
          && var w := st.inodes[st.names[p]].creator.value;
          w < |st.writers| && st.writers[w].tmp == p
          && (st.writers[w].Handle() == Some(st.names[p])
              || st.writers[w].phase == Failed(true) || st.writers[w].phase == Crashed(true)))
  }

  /** The target refers to the file of the last rename, or to what it was. */
  ghost predicate TargetIsLast(init: State, st: State) {
    && st.target == init.target
    && if st.landed == [] then
         && (st.target in st.names <==> st.target in init.names)
         && (st.target in st.names ==> st.names[st.target] == init.names[st.target])
       else st.target in st.names && st.names[st.target] == st.landed[|st.landed| - 1].inode
  }

  ghost predicate NamesOk(init: State, st: State) {
    forall p :: Named(init, st, p)
  }

  ghost predicate WritersOk(init: State, st: State) {
    forall w | 0 <= w < |st.writers| :: Owns(init, st, w) && Holds(st, w)
  }

  ghost predicate FilesOk(init: State, st: State) {
    && (forall i | 0 <= i < |st.inodes| :: Made(init, st, i))
    && (forall j | 0 <= j < |st.landed| :: Settled(init, st, st.landed[j]))
  }

  ghost predicate Inv(init: State, st: State) {
    && Initial(init)
    && |init.inodes| <= |st.inodes|
    && WritersOk(init, st)
    && FilesOk(init, st)
    && (forall j, k | 0 <= j < k < |st.landed| :: st.landed[j].writer != st.landed[k].writer)
    && (forall w | 0 <= w < |st.writers| && st.writers[w].phase == Done :: HasLanded(st, w))
    && NamesOk(init, st)
    && TargetIsLast(init, st)
  }

  ghost predicate HasLanded(st: State, w: nat) {
    exists j :: 0 <= j < |st.landed| && st.landed[j].writer == w
  }

  lemma InitialInv(init: State)
    requires Initial(init)
    ensures Inv(init, init)
  {
  }

  lemma {:induction false} LandedStays(st: State, st': State)
    requires st.landed <= st'.landed
    ensures forall v | HasLanded(st, v) :: HasLanded(st', v)
  {
    forall v | HasLanded(st, v) ensures HasLanded(st', v) {
      var j :| 0 <= j < |st.landed| && st.landed[j].writer == v;
      assert st'.landed[j].writer == v;
    }
  }

  lemma {:induction false} SpawnKeepsInv(init: State, st: State, step: Step)
    requires Inv(init, st) && Enabled(st, step) && step.Spawn?
    ensures Inv(init, Apply(st, step))
  {
    var st' := Apply(st, step);
    forall w | 0 <= w < |st'.writers| ensures Owns(init, st', w) && Holds(st', w) {
      if w < |st.writers| {
        assert Owns(init, st, w) && Holds(st, w);
      }
    }
    forall i | 0 <= i < |st'.inodes| ensures Made(init, st', i) {
      assert Made(init, st, i);
    }
    forall j | 0 <= j < |st'.landed| ensures Settled(init, st', st'.landed[j]) {
      assert Settled(init, st, st.landed[j]);
    }
    forall p ensures Named(init, st', p) {
      assert Named(init, st, p);
    }
    LandedStays(st, st');
  }

  // A step that only moves one writer on, keeping its handle or leaving its file behind.

  lemma {:induction false} MoveKeepsWriters(init: State, st: State, w: nat, phase: Phase)
    requires Inv(init, st) && w < |st.writers| && st.writers[w].phase != Done && phase != Done
    requires var wr := st.writers[w];
             var wr' := wr.(phase := phase);
             wr'.Handle() == wr.Handle() ||
             (wr'.Handle().None? && (phase == Failed(true) || phase == Crashed(true) || wr.Handle().None?))
    requires st.writers[w].phase != Failed(true) && st.writers[w].phase != Crashed(true)
    requires Holds(Moved(st, w, phase), w)
    ensures WritersOk(init, Moved(st, w, phase))
  {
    var st' := Moved(st, w, phase);
    forall v | 0 <= v < |st'.writers| ensures Owns(init, st', v) && Holds(st', v) {
      assert Owns(init, st, v) && Holds(st, v);
    }
  }

  lemma {:induction false} MoveKeepsInv(init: State, st: State, w: nat, phase: Phase)
    requires Inv(init, st) && w < |st.writers| && st.writers[w].phase != Done && phase != Done
    requires var wr := st.writers[w];
             var wr' := wr.(phase := phase);
             wr'.Handle() == wr.Handle() ||
             (wr'.Handle().None? && (phase == Failed(true) || phase == Crashed(true) || wr.Handle().None?))
    requires st.writers[w].phase != Failed(true) && st.writers[w].phase != Crashed(true)
    requires Holds(Moved(st, w, phase), w)
    ensures Inv(init, Moved(st, w, phase))
  {
    var st' := Moved(st, w, phase);
    MoveKeepsWriters(init, st, w, phase);
    forall i | 0 <= i < |st'.inodes| ensures Made(init, st', i) {
      assert Made(init, st, i);
    }
    forall j | 0 <= j < |st'.landed| ensures Settled(init, st', st'.landed[j]) {
      assert Settled(init, st, st.landed[j]);
    }
    forall p ensures Named(init, st', p) {
      assert Named(init, st, p);
    }
    LandedStays(st, st');
  }

  lemma {:induction false} CreateKeepsWriters(init: State, st: State, step: Step)
    requires Inv(init, st) && Enabled(st, step) && step.Create?
    ensures WritersOk(init, Apply(st, step))
  {
    var st', w := Apply(st, step), step.w;
    assert Owns(init, st, w);
    forall v | 0 <= v < |st'.writers| ensures Owns(init, st', v) && Holds(st', v) {
      assert Owns(init, st, v) && Holds(st, v);
    }
  }

  lemma {:induction false} CreateKeepsNames(init: State, st: State, step: Step)
    requires Inv(init, st) && Enabled(st, step) && step.Create?
    ensures NamesOk(init, Apply(st, step))
  {
    var st', w := Apply(st, step), step.w;
    assert Owns(init, st, w);
    forall p ensures Named(init, st', p) {
      assert Named(init, st, p);
    }
  }

  lemma {:induction false} CreateKeepsFiles(init: State, st: State, step: Step)
    requires Inv(init, st) && Enabled(st, step) && step.Create?
    ensures FilesOk(init, Apply(st, step))
  {
    var st', w, n := Apply(st, step), step.w, |st.inodes|;
    assert Owns(init, st, w);
    forall i | 0 <= i < |st'.inodes| ensures Made(init, st', i) {
      if i < n {
        assert Made(init, st, i);
      }
    }
    forall j | 0 <= j < |st'.landed| ensures Settled(init, st', st'.landed[j]) {
      assert Settled(init, st, st.landed[j]);
    }
  }

  lemma {:induction false} CreateKeepsInv(init: State, st: State, step: Step)
    requires Inv(init, st) && Enabled(st, step) && step.Create?
    ensures Inv(init, Apply(st, step))
  {
    assert Owns(init, st, step.w);
    CreateKeepsWriters(init, st, step);
    CreateKeepsFiles(init, st, step);
    CreateKeepsNames(init, st, step);
    LandedStays(st, Apply(st, step));
  }

  // A step that changes the file behind one handle, which no other writer and no landing refers to.

  lemma {:induction false} FileChangeKeepsWriters(init: State, st: State, w: nat, file: Inode, phase: Phase)
    requires Inv(init, st) && w < |st.writers| && st.writers[w].Handle().Some?
    requires var i := st.writers[w].Handle().value;
             && i < |st.inodes| && st.writers[w].(phase := phase).Handle() == Some(i)
             && file.creator == Some(w) && file.mode == st.inodes[i].mode && file.data <= st.writers[w].payload
             && Holds(Moved(st.(inodes := st.inodes[i := file]), w, phase), w)
    ensures WritersOk(init, Moved(st.(inodes := st.inodes[st.writers[w].Handle().value := file]), w, phase))
  {
    var i0 := st.writers[w].Handle().value;
    var st' := Moved(st.(inodes := st.inodes[i0 := file]), w, phase);
    assert Owns(init, st, w);
    forall v | 0 <= v < |st'.writers| ensures Owns(init, st', v) && Holds(st', v) {
      assert Owns(init, st, v) && Holds(st, v);
    }
  }

  lemma {:induction false} FileChangeKeepsNames(init: State, st: State, w: nat, file: Inode, phase: Phase)
    requires Inv(init, st) && w < |st.writers| && st.writers[w].Handle().Some?
    requires var i := st.writers[w].Handle().value;
             && i < |st.inodes| && st.writers[w].(phase := phase).Handle() == Some(i)
             && file.creator == Some(w) && file.mode == st.inodes[i].mode && file.data <= st.writers[w].payload
             && Holds(Moved(st.(inodes := st.inodes[i := file]), w, phase), w)
    ensures NamesOk(init, Moved(st.(inodes := st.inodes[st.writers[w].Handle().value := file]), w, phase))
  {
    var i0 := st.writers[w].Handle().value;
    var st' := Moved(st.(inodes := st.inodes[i0 := file]), w, phase);
    assert Owns(init, st, w);
    forall p ensures Named(init, st', p) {
      assert Named(init, st, p);
    }
  }

  lemma {:induction false} FileChangeKeepsFiles(init: State, st: State, w: nat, file: Inode, phase: Phase)
    requires Inv(init, st) && w < |st.writers| && st.writers[w].Handle().Some?
    requires var i := st.writers[w].Handle().value;
             && i < |st.inodes| && st.writers[w].(phase := phase).Handle() == Some(i)
             && file.creator == Some(w) && file.mode == st.inodes[i].mode && file.data <= st.writers[w].payload
             && Holds(Moved(st.(inodes := st.inodes[i := file]), w, phase), w)
    ensures var st' := Moved(st.(inodes := st.inodes[st.writers[w].Handle().value := file]), w, phase);
            (forall i | 0 <= i < |st'.inodes| :: Made(init, st', i)) &&
            (forall j | 0 <= j < |st'.landed| :: Settled(init, st', st'.landed[j]))
  {
    var i0 := st.writers[w].Handle().value;
    var st' := Moved(st.(inodes := st.inodes[i0 := file]), w, phase);
    assert Owns(init, st, w);
    forall i | 0 <= i < |st'.inodes| ensures Made(init, st', i) {
      assert Made(init, st, i);
    }
    forall j | 0 <= j < |st'.landed| ensures Settled(init, st', st'.landed[j]) {
      assert Settled(init, st, st.landed[j]);
    }
  }

  lemma {:induction false} FileChangeKeepsInv(init: State, st: State, w: nat, file: Inode, phase: Phase)
    requires Inv(init, st) && w < |st.writers| && st.writers[w].Handle().Some?
    requires var i := st.writers[w].Handle().value;
             && i < |st.inodes| && st.writers[w].(phase := phase).Handle() == Some(i)
             && file.creator == Some(w) && file.mode == st.inodes[i].mode && file.data <= st.writers[w].payload
             && Holds(Moved(st.(inodes := st.inodes[i := file]), w, phase), w)
    ensures Inv(init, Moved(st.(inodes := st.inodes[st.writers[w].Handle().value := file]), w, phase))
  {
    var i0 := st.writers[w].Handle().value;
    var st' := Moved(st.(inodes := st.inodes[i0 := file]), w, phase);
    assert Owns(init, st, w);
    FileChangeKeepsWriters(init, st, w, file, phase);
    FileChangeKeepsFiles(init, st, w, file, phase);
    FileChangeKeepsNames(init, st, w, file, phase);
    LandedStays(st, st');
  }

  lemma {:induction false} WriteKeepsInv(init: State, st: State, w: nat, count: nat)
    requires Inv(init, st) && Enabled(st, WriteSome(w, count))
    ensures Inv(init, Apply(st, WriteSome(w, count)))
  {
    assert Owns(init, st, w) && Holds(st, w);
    var payload, i, k := st.writers[w].payload, st.writers[w].phase.inode, st.writers[w].phase.written;
    assert payload[..k] + payload[k..k + count] == payload[..k + count];
    var longer := st.inodes[i].(data := st.inodes[i].data + payload[k..k + count], synced := false);
    FileChangeKeepsInv(init, st, w, longer, Writing(i, k + count));
  }

  lemma {:induction false} SyncKeepsInv(init: State, st: State, w: nat)
    requires Inv(init, st) && Enabled(st, Sync(w))
    ensures Inv(init, Apply(st, Sync(w)))
  {
    assert Owns(init, st, w) && Holds(st, w);
    var i := st.writers[w].phase.inode;
    FileChangeKeepsInv(init, st, w, st.inodes[i].(synced := true), Synced(i));
  }

  lemma {:induction false} RenameKeepsWriters(init: State, st: State, step: Step)
    requires Inv(init, st) && Enabled(st, step) && step.Rename?
    ensures WritersOk(init, Apply(st, step))
  {
    var st', w := Apply(st, step), step.w;
    assert Owns(init, st, w) && Holds(st, w);
    forall v | 0 <= v < |st'.writers| ensures Owns(init, st', v) && Holds(st', v) {
      assert Owns(init, st, v) && Holds(st, v);
    }
  }

  lemma {:induction false} RenameKeepsNames(init: State, st: State, step: Step)
    requires Inv(init, st) && Enabled(st, step) && step.Rename?
    ensures NamesOk(init, Apply(st, step))
  {
    var st', w := Apply(st, step), step.w;
    assert Owns(init, st, w) && Holds(st, w);
    forall p ensures Named(init, st', p) {
      assert Named(init, st, p);
    }
  }

  lemma {:induction false} RenameKeepsFiles(init: State, st: State, step: Step)
    requires Inv(init, st) && Enabled(st, step) && step.Rename?
    ensures FilesOk(init, Apply(st, step))
  {
    var st', w := Apply(st, step), step.w;
    assert Owns(init, st, w) && Holds(st, w);
    forall i | 0 <= i < |st'.inodes| ensures Made(init, st', i) {
      assert Made(init, st, i);
    }
    forall j | 0 <= j < |st'.landed| ensures Settled(init, st', st'.landed[j]) {
      if j < |st.landed| {
        assert Settled(init, st, st.landed[j]);
      }
    }
  }

  lemma {:induction false} RenameKeepsInv(init: State, st: State, step: Step)
    requires Inv(init, st) && Enabled(st, step) && step.Rename?
    ensures Inv(init, Apply(st, step))
  {
    var st', w := Apply(st, step), step.w;
    assert Owns(init, st, w) && Holds(st, w);
    RenameKeepsWriters(init, st, step);
    RenameKeepsFiles(init, st, step);
    RenameKeepsNames(init, st, step);
    LandedStays(st, st');
    forall j | 0 <= j < |st.landed| ensures st.landed[j].writer != w {
      assert Settled(init, st, st.landed[j]);
    }
    assert st'.landed[|st.landed|].writer == w;
  }

  lemma {:induction false} RemoveKeepsWriters(init: State, st: State, step: Step)
    requires Inv(init, st) && Enabled(st, step) && step.Remove?
    ensures WritersOk(init, Apply(st, step))
  {
    var st', w := Apply(st, step), step.w;
    assert Owns(init, st, w);
    forall v | 0 <= v < |st'.writers| ensures Owns(init, st', v) && Holds(st', v) {
      assert Owns(init, st, v) && Holds(st, v);
    }
  }

  lemma {:induction false} RemoveKeepsNames(init: State, st: State, step: Step)
    requires Inv(init, st) && Enabled(st, step) && step.Remove?
    ensures NamesOk(init, Apply(st, step))
  {
    var st', w := Apply(st, step), step.w;
    assert Owns(init, st, w);
    forall p ensures Named(init, st', p) {
      assert Named(init, st, p);
    }
  }

  lemma {:induction false} RemoveKeepsFiles(init: State, st: State, step: Step)
    requires Inv(init, st) && Enabled(st, step) && step.Remove?
    ensures FilesOk(init, Apply(st, step))
  {
    var st' := Apply(st, step);
    assert Owns(init, st, step.w);
    forall i | 0 <= i < |st'.inodes| ensures Made(init, st', i) {
      assert Made(init, st, i);
    }
    forall j | 0 <= j < |st'.landed| ensures Settled(init, st', st'.landed[j]) {
      assert Settled(init, st, st.landed[j]);
    }
  }

  lemma {:induction false} RemoveKeepsInv(init: State, st: State, step: Step)
    requires Inv(init, st) && Enabled(st, step) && step.Remove?
    ensures Inv(init, Apply(st, step))
  {
    assert Owns(init, st, step.w);
    RemoveKeepsWriters(init, st, step);
    RemoveKeepsFiles(init, st, step);
    RemoveKeepsNames(init, st, step);
    LandedStays(st, Apply(st, step));
  }

  lemma {:induction false} StepKeepsInv(init: State, st: State, step: Step)
    requires Inv(init, st) && Enabled(st, step)
    ensures Inv(init, Apply(st, step))
  {
    match step {
      case Spawn(_, _, _) => SpawnKeepsInv(init, st, step);
      case Create(_, _) => CreateKeepsInv(init, st, step);
      case WriteSome(w, count) => WriteKeepsInv(init, st, w, count);
      case Sync(w) => SyncKeepsInv(init, st, w);
      case Rename(_) => RenameKeepsInv(init, st, step);
      case Remove(_) => RemoveKeepsInv(init, st, step);
      case _ => PhaseStepKeepsInv(init, st, step);
    }
  }

  lemma {:induction false} PhaseStepKeepsInv(init: State, st: State, step: Step)
    requires Inv(init, st) && Enabled(st, step)
    requires !step.Spawn? && !step.Create? && !step.WriteSome? && !step.Sync? && !step.Rename? && !step.Remove?
    ensures Inv(init, Apply(st, step))
  {
    var w := step.w;
    assert Holds(st, w);
    var phase := Apply(st, step).writers[w].phase;
    if phase != st.writers[w].phase {
      MoveKeepsInv(init, st, w, phase);
    }
  }

  lemma {:induction false} RunKeepsInv(init: State, st: State, steps: seq<Step>, end: State)
    requires Inv(init, st) && Runs(st, steps, end)
    ensures Inv(init, end)
    decreases |steps|
  {
    if steps != [] {
      StepKeepsInv(init, st, steps[0]);
      RunKeepsInv(init, Apply(st, steps[0]), steps[1..], end);
    }
  }

  // ----- what every run guarantees -----

  /** What a reader finds at the target. */
  function Content(st: State): (c: Option<seq<Byte>>) {
    if st.target in st.names && st.names[st.target] < |st.inodes|
    then Some(st.inodes[st.names[st.target]].data)
    else None
  }

  /** The contents after a number of renames: the payload of the last one, or what was there. */
  function Version(init: State, st: State, n: nat): (c: Option<seq<Byte>>)
    requires n <= |st.landed|
  {
    if n == 0 then Content(init)
    else if st.landed[n - 1].writer < |st.writers| then Some(st.writers[st.landed[n - 1].writer].payload)
    else None
  }

  /**
   In every interleaving the target holds its initial contents until a rename succeeds, and from
   then on the whole payload of the writer whose rename came last.
   */
  lemma {:induction false} TargetIsNeverTorn(init: State, steps: seq<Step>, st: State)
    requires Initial(init) && Runs(init, steps, st)
    ensures Content(st) == Version(init, st, |st.landed|)
  {
    InitialInv(init);
    RunKeepsInv(init, init, steps, st);
    ContentOfInv(init, st);
  }

  lemma {:induction false} ContentOfInv(init: State, st: State)
    requires Inv(init, st)
    ensures Content(st) == Version(init, st, |st.landed|)
  {
    if st.landed != [] {
      assert Settled(init, st, st.landed[|st.landed| - 1]);
    } else {
      assert Named(init, st, st.target);
      if st.target in st.names {
        assert Made(init, st, st.names[st.target]);
      }
    }
  }

  /** A write reports success exactly when it landed, and it lands once. */
  lemma {:induction false} SuccessIsOneLanding(init: State, steps: seq<Step>, st: State, w: nat)
    requires Initial(init) && Runs(init, steps, st) && w < |st.writers|
    ensures st.writers[w].phase == Done <==> HasLanded(st, w)
    ensures forall j, k | 0 <= j < k < |st.landed| && st.landed[j].writer == w :: st.landed[k].writer != w
  {
    InitialInv(init);
    RunKeepsInv(init, init, steps, st);
    if HasLanded(st, w) {
      var j :| 0 <= j < |st.landed| && st.landed[j].writer == w;
      assert Settled(init, st, st.landed[j]);
    }
  }

  /** No file made by a private write is ever readable by anyone but its owner. */
  lemma {:induction false} PrivateFilesStayPrivate(init: State, steps: seq<Step>, st: State, i: nat)
    requires Initial(init) && Runs(init, steps, st) && i < |st.inodes|
    ensures st.inodes[i].creator.None? ==> i < |init.inodes| && st.inodes[i] == init.inodes[i]
    ensures st.inodes[i].creator.Some? ==>
              var w := st.inodes[i].creator.value;
              && w < |st.writers| && st.inodes[i].data <= st.writers[w].payload
              && (st.writers[w].private ==> OwnerOnly(st.inodes[i].mode))
  {
    InitialInv(init);
    RunKeepsInv(init, init, steps, st);
    assert Made(init, st, i);
  }

  /** The writer left its temporary because its removal failed, or because it crashed. */
  ghost predicate LeftByFault(steps: seq<Step>, phase: Phase, w: nat) {
    (phase == Failed(true) && RemoveError(w) in steps) || (phase == Crashed(true) && Crash(w) in steps)
  }

  lemma {:induction false} LeaksAreFaults(st: State, steps: seq<Step>, end: State, w: nat)
    requires Runs(st, steps, end) && w < |end.writers| && end.writers[w].phase in {Failed(true), Crashed(true)}
    ensures LeftByFault(steps, end.writers[w].phase, w)
            || (w < |st.writers| && st.writers[w].phase == end.writers[w].phase)
    decreases |steps|
  {
    if steps != [] {
      LeaksAreFaults(Apply(st, steps[0]), steps[1..], end, w);
    }
  }

  /** Other files are untouched; a temporary is left only of a writer at work, or that crashed or could not clean up. */
  lemma {:induction false} NoResidue(init: State, steps: seq<Step>, st: State, p: Path)
    requires Initial(init) && Runs(init, steps, st) && p != init.target
    ensures p in init.names ==>
              p in st.names && st.names[p] == init.names[p] && st.names[p] < |init.inodes| <= |st.inodes|
              && st.inodes[st.names[p]] == init.inodes[st.names[p]]
    ensures p in st.names && p !in init.names ==>
              exists w :: 0 <= w < |st.writers| && st.writers[w].tmp == p &&
                          (st.writers[w].Handle().Some? || LeftByFault(steps, st.writers[w].phase, w))
  {
    InitialInv(init);
    RunKeepsInv(init, init, steps, st);
    assert Named(init, st, p);
    forall w: nat | w < |st.writers| && st.writers[w].phase in {Failed(true), Crashed(true)}
      ensures LeftByFault(steps, st.writers[w].phase, w)
    {
      LeaksAreFaults(init, steps, st, w);
    }
    if p in init.names {
      assert Made(init, st, init.names[p]);
    }
  }

  /** A file that is at the target, or was, is never written again. */
  ghost predicate Frozen(init: State, st: State, i: nat) {
    && i < |st.inodes|
    && (i < |init.inodes| ||
        (st.inodes[i].creator.Some? && st.inodes[i].creator.value < |st.writers|
         && st.writers[st.inodes[i].creator.value].phase == Done))
  }

  lemma {:induction false} StepKeepsFrozen(init: State, st: State, step: Step, i: nat)
    requires Inv(init, st) && Enabled(st, step) && Frozen(init, st, i)
    ensures Frozen(init, Apply(st, step), i) && Apply(st, step).inodes[i] == st.inodes[i]
  {
    if !step.Spawn? {
      assert Owns(init, st, step.w);
    }
  }

  lemma {:induction false} RunKeepsFrozen(init: State, st: State, steps: seq<Step>, end: State, i: nat)
    requires Inv(init, st) && Runs(st, steps, end) && Frozen(init, st, i)
    ensures i < |end.inodes| && end.inodes[i] == st.inodes[i]
    decreases |steps|
  {
    if steps != [] {
      StepKeepsInv(init, st, steps[0]);
      StepKeepsFrozen(init, st, steps[0], i);
      RunKeepsFrozen(init, Apply(st, steps[0]), steps[1..], end, i);
    }
  }

  /**
   A reader that opens the target reads one version however long it takes: the file it opened
   keeps its contents whatever the writers do meanwhile.
   */
  lemma {:induction false} ReadersSeeOneVersion(init: State, steps: seq<Step>, seen: State, more: seq<Step>,
      later: State)
    requires Initial(init) && Runs(init, steps, seen) && Runs(seen, more, later)
    requires seen.target in seen.names
    ensures var i := seen.names[seen.target];
            i < |seen.inodes| && i < |later.inodes| && Some(later.inodes[i].data) == Content(seen)
  {
    InitialInv(init);
    RunKeepsInv(init, init, steps, seen);
    var i := seen.names[seen.target];
    assert Named(init, seen, seen.target);
    if seen.landed != [] {
      assert Settled(init, seen, seen.landed[|seen.landed| - 1]);
    }
    RunKeepsFrozen(init, seen, more, later, i);
  }

  // ----- power loss -----

  /** The directory entry of the target as it was after `n` of the renames. */
  ghost predicate EntryAfter(init: State, st: State, names: map<Path, nat>, n: nat)
    requires n <= |st.landed|
  {
    if n > 0 then st.target in names && names[st.target] == st.landed[n - 1].inode
    else (st.target in names <==> init.target in init.names)
         && (st.target in names ==> names[st.target] == init.names[init.target])
  }

  /**
   What a power loss can leave: no writer survives, the target's entry is as it was after any number of
   the renames, other entries are anything, and only synced files, and those there before, keep their data.
   */
  ghost predicate PowerLoss(init: State, st: State, after: State) {
    && after.target == st.target && after.writers == [] && after.landed == []
    && |after.inodes| == |st.inodes|
    && (forall p | p in after.names :: after.names[p] < |after.inodes|)
    && (forall i | 0 <= i < |st.inodes| ::
          && after.inodes[i].creator.None?
          && (st.inodes[i].synced || i < |init.inodes| ==> after.inodes[i].data == st.inodes[i].data))
    && exists n :: 0 <= n <= |st.landed| && EntryAfter(init, st, after.names, n)
  }

  /** After a power loss the target holds one of the versions it had, whole, and processes can start again. */
  lemma {:induction false} PowerLossLeavesAVersion(init: State, steps: seq<Step>, st: State, after: State)
      returns (n: nat)
    requires Initial(init) && Runs(init, steps, st) && PowerLoss(init, st, after)
    ensures n <= |st.landed| && Content(after) == Version(init, st, n) && Initial(after)
  {
    InitialInv(init);
    RunKeepsInv(init, init, steps, st);
    n :| 0 <= n <= |st.landed| && EntryAfter(init, st, after.names, n);
    if n > 0 {
      assert Settled(init, st, st.landed[n - 1]);
    } else if init.target in init.names {
      assert Made(init, st, init.names[init.target]);
    }
  }

  /** Processes at work from a start to a moment. */
  datatype Epoch = Epoch(init: State, steps: seq<Step>, end: State)

  /** Epochs separated by power losses. */
  ghost predicate Epochs(es: seq<Epoch>) {
    && es != [] && Initial(es[0].init)
    && (forall k | 0 <= k < |es| :: Runs(es[k].init, es[k].steps, es[k].end))
    && (forall k | 0 <= k < |es| - 1 :: PowerLoss(es[k].init, es[k].end, es[k + 1].init))
  }

  /** The contents were at the target at first, or are the whole payload of some writer. */
  ghost predicate Whole(es: seq<Epoch>, content: Option<seq<Byte>>)
    requires es != []
  {
    || content == Content(es[0].init)
    || exists k, w :: 0 <= k < |es| && 0 <= w < |es[k].end.writers| && content == Some(es[k].end.writers[w].payload)
  }

  lemma {:induction false} VersionIsWhole(es: seq<Epoch>, k: nat, n: nat)
    requires k < |es| && Initial(es[k].init) && Runs(es[k].init, es[k].steps, es[k].end) && n <= |es[k].end.landed|
    requires Whole(es, Content(es[k].init))
    ensures Whole(es, Version(es[k].init, es[k].end, n))
  {
    var init, st := es[k].init, es[k].end;
    InitialInv(init);
    RunKeepsInv(init, init, es[k].steps, st);
    if n > 0 {
      assert Settled(init, st, st.landed[n - 1]);
    }
  }

  lemma {:induction false} EpochStartsWhole(es: seq<Epoch>, k: nat)
    requires Epochs(es) && k < |es|
    ensures Initial(es[k].init) && Whole(es, Content(es[k].init))
  {
    if k > 0 {
      EpochStartsWhole(es, k - 1);
      var before := es[k - 1];
      assert Runs(before.init, before.steps, before.end);
      assert PowerLoss(es[k - 1].init, es[k - 1].end, es[k - 1 + 1].init);
      var n := PowerLossLeavesAVersion(before.init, before.steps, before.end, es[k].init);
      VersionIsWhole(es, k - 1, n);
    }
  }

  /** Through any number of power losses the target is never torn. */
  lemma {:induction false} NeverTornAcrossPowerLosses(es: seq<Epoch>, k: nat)
    requires Epochs(es) && k < |es|
    ensures Whole(es, Content(es[k].end))
  {
    EpochStartsWhole(es, k);
    var e := es[k];
    assert Runs(e.init, e.steps, e.end);
    TargetIsNeverTorn(e.init, e.steps, e.end);
    VersionIsWhole(es, k, |e.end.landed|);
  }

  // ----- names -----

  /** The temporary name next to a path, for a drawn identifier. */
  function TemporaryPath(p: Path, id: string): (t: Path) { Path(p.dir, p.name + "." + id + ".tmp") }

  /** Whatever identifier is drawn, the temporary is another name in the same directory. */
  lemma TemporaryIsNotTarget(p: Path, id: string)
    ensures TemporaryPath(p, id) != p && TemporaryPath(p, id).dir == p.dir
  {
    assert |TemporaryPath(p, id).name| > |p.name|;
  }
}
