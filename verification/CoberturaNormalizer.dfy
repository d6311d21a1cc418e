/**
 The streaming loop of `normalize_cobertura`.

 One line machine runs over either of two records of the current class: the history of filed
 methods, which is the specification, and the script's hashes, which is what the loop keeps.
 The two are proved to produce the same output, counts and errors on every input.
 */
module CoberturaNormalizer {

  import opened Outcomes
  import opened CoberturaLines
  import opened CoberturaMerge
  import opened CoberturaGroups

  // ----- the line machine -----

  /** The outcome of recording a method: the new record, and what to add to the counters. */
  datatype Filing<B> = Filing(book: B, merged: nat, renamed: nat)

  /** A way of recording the methods of the current class. */
  datatype Book<!B> = Book(empty: B, file: (B, Filed) -> Result<Filing<B>, Error>, emit: B -> Xml)

  datatype State<B> = State(
    cls: Option<string>,
    book: B,                   // methods filed since the last `<class `
    open: Option<Filed>,       // the method being collected
    inMethods: bool,
    out: Xml,
    total: nat,
    merged: nat,
    renamed: nat)

  datatype Normalized = Normalized(out: Xml, total: nat, merged: nat, renamed: nat)

  function Start<B>(empty: B): (st: State<B>) {
    State(None, empty, None, false, [], 0, 0, 0)
  }

  /** A complete method is recorded and the collection buffer cleared. */
  function Close<B>(ops: Book<B>, st: State<B>, f: Filed): (r: Result<State<B>, Error>) {
    match ops.file(st.book, f)
    case Err(e) => Err(e)
    case Ok(d) =>
      Ok(st.(book := d.book, open := None, merged := st.merged + d.merged, renamed := st.renamed + d.renamed))
  }

  /** A line outside a method that does not open one: written through, after the methods. */
  function PlainLine<B>(ops: Book<B>, st: State<B>, line: Line): (r: State<B>) {
    var flush := st.inMethods && line.methodsClose;
    st.(out := (if flush then st.out + ops.emit(st.book) else st.out) + [line],
        inMethods := st.inMethods && !flush,
        cls := if line.classClose then None else st.cls)
  }

  /** The effect of a line's class and section tags on what follows in the same line. */
  function Entered<B>(ops: Book<B>, st: State<B>, line: Line): (r: State<B>) {
    var s := if line.classOpen then st.(cls := line.name, book := ops.empty) else st;
    if s.cls.Some? && line.methodsOpen then s.(inMethods := true) else s
  }

  function Step<B>(ops: Book<B>, st: State<B>, line: Line): (r: Result<State<B>, Error>)
  {
    if st.open.Some? then
      var f := Filed(st.open.value.key, st.open.value.xml + [line]);
      if line.methodClose then Close(ops, st, f) else Ok(st.(open := Some(f)))
    else if line.classOpen && st.cls.Some? then Err(NestedClass)
    else if line.classOpen && line.name.None? then Err(MissingAttribute)
    else
      var s := Entered(ops, st, line);
      if !line.methodOpen then Ok(PlainLine(ops, s, line))
      else if s.cls.None? then Err(MethodOutsideClass)
      else if line.name.None? || line.signature.None? then Err(MissingAttribute)
      else
        var key := Key(s.cls.value, line.name.value, line.signature.value);
        Ok(s.(open := Some(Filed(key, [line])), total := s.total + 1))
  }

  function RunFrom<B>(ops: Book<B>, st: State<B>, input: Xml): (r: Result<State<B>, Error>)
    decreases |input|
  {
    if input == [] then Ok(st)
    else
      var next := Step(ops, st, input[0]);
      if next.Err? then next else RunFrom(ops, next.value, input[1..])
  }

  function Finish<B>(st: State<B>): (r: Result<Normalized, Error>) {
    if st.open.Some? then Err(UnterminatedMethod)
    else if st.inMethods then Err(UnterminatedMethods)
    else if st.cls.Some? then Err(UnterminatedClass)
    else Ok(Normalized(st.out, st.total, st.merged, st.renamed))
  }

  function RunWith<B>(ops: Book<B>, input: Xml): (r: Result<Normalized, Error>) {
    var r := RunFrom(ops, Start(ops.empty), input);
    if r.Err? then Err(r.error) else Finish(r.value)
  }

  // ----- two records that agree give the same run -----

  /** `rel` holds of the empty records and is kept by filing, and related records emit the same text. */
  ghost predicate Simulates<B(!new), C(!new)>(b: Book<B>, c: Book<C>, rel: (B, C) -> bool) {
    && rel(b.empty, c.empty)
    && (forall x, y | rel(x, y) :: b.emit(x) == c.emit(y))
    && (forall x, y, f | rel(x, y) :: FilingsAgree(b.file(x, f), c.file(y, f), rel))
  }

  ghost predicate FilingsAgree<B, C>(p: Result<Filing<B>, Error>, q: Result<Filing<C>, Error>, rel: (B, C) -> bool) {
    match (p, q)
    case (Err(e), Err(d)) => e == d
    case (Ok(x), Ok(y)) => rel(x.book, y.book) && x.merged == y.merged && x.renamed == y.renamed
    case _ => false
  }

  ghost predicate StatesAgree<B, C>(s: State<B>, t: State<C>, rel: (B, C) -> bool) {
    && rel(s.book, t.book)
    && State(s.cls, 0, s.open, s.inMethods, s.out, s.total, s.merged, s.renamed)
       == State(t.cls, 0, t.open, t.inMethods, t.out, t.total, t.merged, t.renamed)
  }

  ghost predicate ResultsAgree<B, C>(p: Result<State<B>, Error>, q: Result<State<C>, Error>, rel: (B, C) -> bool) {
    match (p, q)
    case (Err(e), Err(d)) => e == d
    case (Ok(s), Ok(t)) => StatesAgree(s, t, rel)
    case _ => false
  }

  lemma {:induction false} StepsAgree<B(!new), C(!new)>(
      b: Book<B>, c: Book<C>, rel: (B, C) -> bool, s: State<B>, t: State<C>, line: Line)
    requires Simulates(b, c, rel) && StatesAgree(s, t, rel)
    ensures ResultsAgree(Step(b, s, line), Step(c, t, line), rel)
  {
    if s.open.Some? {
      var f := Filed(s.open.value.key, s.open.value.xml + [line]);
      assert FilingsAgree(b.file(s.book, f), c.file(t.book, f), rel);
    } else {
      assert b.emit(s.book) == c.emit(t.book) && b.emit(b.empty) == c.emit(c.empty);
    }
  }

  lemma {:induction false} RunsAgree<B(!new), C(!new)>(
      b: Book<B>, c: Book<C>, rel: (B, C) -> bool, s: State<B>, t: State<C>, input: Xml)
    requires Simulates(b, c, rel) && StatesAgree(s, t, rel)
    ensures ResultsAgree(RunFrom(b, s, input), RunFrom(c, t, input), rel)
    decreases |input|
  {
    if input != [] {
      StepsAgree(b, c, rel, s, t, input[0]);
      var next, next' := Step(b, s, input[0]), Step(c, t, input[0]);
      if next.Ok? {
        RunsAgree(b, c, rel, next.value, next'.value, input[1..]);
      }
    }
  }

  lemma {:induction false} SimulationPreservesRuns<B(!new), C(!new)>(b: Book<B>, c: Book<C>, rel: (B, C) -> bool,
      input: Xml)
    requires Simulates(b, c, rel)
    ensures RunWith(b, input) == RunWith(c, input)
  {
    RunsAgree(b, c, rel, Start(b.empty), Start(c.empty), input);
  }

  // ----- the specification: a history of methods -----

  ghost function EmitIds(hash: Suffix, seen: seq<Filed>, ids: seq<Identity>): (r: Xml) {
    if ids == [] then []
    else EmitIds(hash, seen, ids[..|ids| - 1]) + Survivor(hash, seen, ids[|ids| - 1])
  }

  /** The text written at `</methods>`: one method per identity, in order of first appearance. */
  ghost function Emit(hash: Suffix, seen: seq<Filed>): (r: Xml) {
    EmitIds(hash, seen, Ids(seen))
  }

  lemma {:induction false} EmitSameSurvivors(hash: Suffix, seen: seq<Filed>, seen': seq<Filed>, ids: seq<Identity>)
    requires forall id | id in ids :: Survivor(hash, seen, id) == Survivor(hash, seen', id)
    ensures EmitIds(hash, seen, ids) == EmitIds(hash, seen', ids)
    decreases |ids|
  {
    if ids != [] {
      EmitSameSurvivors(hash, seen, seen', ids[..|ids| - 1]);
    }
  }

  /** What is written for a class does not depend on the order in which later duplicates arrive. */
  lemma {:induction false} EmissionIgnoresOrder(hash: Suffix, seen: seq<Filed>, seen': seq<Filed>)
    requires Consistent(seen) && DistinctAll(seen) && SameProfiles(seen, seen')
    ensures Emit(hash, seen) == Emit(hash, seen')
  {
    forall id | id in Ids(seen) ensures Survivor(hash, seen, id) == Survivor(hash, seen', id) {
      SurvivorIgnoresOrder(hash, seen, seen', id);
    }
    EmitSameSurvivors(hash, seen, seen', Ids(seen));
  }

  /** A readable method joins the history unless it conflicts with what its identity holds. */
  ghost function FileInHistory(hash: Suffix, seen: seq<Filed>, f: Filed): (r: Result<Filing<seq<Filed>>, Error>) {
    if !Readable(Tags(f.xml)) then Err(MissingAttribute)
    else if f.Id() in Ids(seen) then
      match Conflict(Survivor(hash, seen, f.Id()), f.xml)
      case Some(e) => Err(e)
      case None => Ok(Filing(seen + [f], 1, 0))
    else Ok(Filing(seen + [f], 0, if KeySeen(seen, f.key) then 1 else 0))
  }

  ghost function History(hash: Suffix): (b: Book<seq<Filed>>) {
    Book([], (seen, f) => FileInHistory(hash, seen, f), seen => Emit(hash, seen))
  }

  /** What normalizing a report means. */
  ghost function Run(hash: Suffix, input: Xml): (r: Result<Normalized, Error>) {
    RunWith(History(hash), input)
  }

  // ----- the script's record: hashes and an order list -----

  /** `methods`, `method_structures` and `method_order`. */
  datatype Tables = Tables(methods: map<Identity, Xml>, structures: map<Key, seq<string>>, order: seq<Identity>)

  const NO_TABLES := Tables(map[], map[], [])

  function StructuresOf(t: Tables, key: Key): (s: seq<string>) {
    if key in t.structures then t.structures[key] else []
  }

  ghost function FileInTables(hash: Suffix, t: Tables, f: Filed): (r: Result<Filing<Tables>, Error>) {
    var id, known := f.Id(), StructuresOf(t, f.key);
    if !Readable(Tags(f.xml)) then Err(MissingAttribute)
    else if id in t.methods then
      match Conflict(t.methods[id], f.xml)
      case Some(e) => Err(e)
      case None => Ok(Filing(t.(methods := t.methods[id := Merged(t.methods[id], f.xml)]), 1, 0))
    else
      var stored := if known != [] then Disambiguated(hash, f.xml, id.structure) else f.xml;
      Ok(Filing(Tables(t.methods[id := stored], t.structures[f.key := known + [id.structure]], t.order + [id]),
                0, if known != [] then 1 else 0))
  }

  function Concatenated(methods: map<Identity, Xml>, order: seq<Identity>): (r: Xml) {
    if order == [] then []
    else
      var last := order[|order| - 1];
      Concatenated(methods, order[..|order| - 1]) + if last in methods then methods[last] else []
  }

  ghost function Hashes(hash: Suffix): (b: Book<Tables>) {
    Book(NO_TABLES, (t, f) => FileInTables(hash, t, f), (t: Tables) => Concatenated(t.methods, t.order))
  }

  // ----- the hashes hold what the history says -----

  ghost predicate Stores(hash: Suffix, methods: map<Identity, Xml>, seen: seq<Filed>) {
    && (forall id :: id in methods <==> id in Ids(seen))
    && (forall id | id in methods :: methods[id] == Survivor(hash, seen, id))
  }

  ghost predicate KeysMatch(t: Tables, seen: seq<Filed>) {
    forall k :: StructuresOf(t, k) != [] <==> KeySeen(seen, k)
  }

  ghost predicate Represents(hash: Suffix, t: Tables, seen: seq<Filed>) {
    t.order == Ids(seen) && Stores(hash, t.methods, seen) && KeysMatch(t, seen)
  }

  lemma {:induction false} IdsOneMore(seen: seq<Filed>, f: Filed)
    ensures Ids(seen + [f]) == if f.Id() in Ids(seen) then Ids(seen) else Ids(seen) + [f.Id()]
  {
    assert (seen + [f])[..|seen|] == seen;
  }

  lemma {:induction false} StoresOneMore(hash: Suffix, methods: map<Identity, Xml>, seen: seq<Filed>, f: Filed)
    requires Stores(hash, methods, seen)
    ensures Stores(hash, methods[f.Id() := Survivor(hash, seen + [f], f.Id())], seen + [f])
  {
    IdsOneMore(seen, f);
    forall id | id in Ids(seen) && id != f.Id()
      ensures Survivor(hash, seen + [f], id) == Survivor(hash, seen, id)
    {
      SurvivorOfOther(hash, seen, f, id);
    }
  }

  lemma {:induction false} KeySeenOneMore(seen: seq<Filed>, f: Filed, k: Key)
    ensures KeySeen(seen + [f], k) <==> KeySeen(seen, k) || k == f.key
  {
    if KeySeen(seen, k) {
      var g :| g in seen && g.key == k;
      assert g in seen + [f];
    }
    assert f in seen + [f];
  }

  lemma {:induction false} RepresentsMerge(hash: Suffix, t: Tables, seen: seq<Filed>, f: Filed)
    requires Represents(hash, t, seen) && f.Id() in Ids(seen)
    ensures Represents(hash, t.(methods := t.methods[f.Id() := Merged(t.methods[f.Id()], f.xml)]), seen + [f])
  {
    IdsOneMore(seen, f);
    SurvivorOfLast(hash, seen, f);
    StoresOneMore(hash, t.methods, seen, f);
    var g := IdHasMethod(seen, f.Id());
    assert KeySeen(seen, f.key);
    forall k { KeySeenOneMore(seen, f, k); }
  }

  lemma {:induction false} RepresentsNew(hash: Suffix, t: Tables, seen: seq<Filed>, f: Filed, known: seq<string>)
    requires Represents(hash, t, seen) && f.Id() !in Ids(seen)
    ensures Represents(hash, Tables(t.methods[f.Id() := Stored(hash, seen, f)],
                                    t.structures[f.key := known + [f.Id().structure]],
                                    t.order + [f.Id()]),
                       seen + [f])
  {
    IdsOneMore(seen, f);
    SurvivorOfLast(hash, seen, f);
    StoresOneMore(hash, t.methods, seen, f);
    forall k { KeySeenOneMore(seen, f, k); }
  }

  lemma {:induction false} FilingAgrees(hash: Suffix, t: Tables, seen: seq<Filed>, f: Filed)
    requires Represents(hash, t, seen)
    ensures FilingsAgree(FileInTables(hash, t, f), FileInHistory(hash, seen, f), (t, s) => Represents(hash, t, s))
  {
    if f.Id() in Ids(seen) {
      RepresentsMerge(hash, t, seen, f);
    } else {
      RepresentsNew(hash, t, seen, f, StructuresOf(t, f.key));
    }
  }

  lemma {:induction false} EmissionAgrees(hash: Suffix, methods: map<Identity, Xml>, seen: seq<Filed>,
      ids: seq<Identity>)
    requires Stores(hash, methods, seen) && forall id | id in ids :: id in Ids(seen)
    ensures Concatenated(methods, ids) == EmitIds(hash, seen, ids)
    decreases |ids|
  {
    if ids != [] {
      EmissionAgrees(hash, methods, seen, ids[..|ids| - 1]);
    }
  }

  /** The hashes simulate the history, so they give the same run on every input. */
  lemma {:induction false} HashesRefineHistory(hash: Suffix, input: Xml)
    ensures RunWith(Hashes(hash), input) == Run(hash, input)
  {
    var rel := (t, s) => Represents(hash, t, s);
    forall t, s | rel(t, s) ensures Hashes(hash).emit(t) == History(hash).emit(s) {
      EmissionAgrees(hash, t.methods, s, t.order);
    }
    forall t, s, f | rel(t, s) ensures FilingsAgree(Hashes(hash).file(t, f), History(hash).file(s, f), rel) {
      FilingAgrees(hash, t, s, f);
    }
    SimulationPreservesRuns(Hashes(hash), History(hash), rel, input);
  }

  // ----- the script -----

  method FileMethod(hash: Suffix, t: Tables, key: Key, xml: Xml)
    returns (r: Result<Filing<Tables>, Error>)
    ensures r == Hashes(hash).file(t, Filed(key, xml))
  {
    if !Readable(Tags(xml)) {
      return Err(MissingAttribute);
    }
    var structure := Structure(Tags(xml));
    var identity := Identity(key, structure);
    assert identity == Filed(key, xml).Id();
    if identity in t.methods {
      var m := MergeMethodXml(t.methods[identity], xml);
      if m.Err? {
        return Err(m.error);
      }
      r := Ok(Filing(t.(methods := t.methods[identity := m.value]), 1, 0));
    } else {
      var stored, renamed, known := xml, 0, StructuresOf(t, key);
      if known != [] {
        stored := Disambiguated(hash, xml, structure);
        renamed := 1;
      }
      r := Ok(Filing(Tables(t.methods[identity := stored], t.structures[key := known + [structure]],
                            t.order + [identity]),
                     0, renamed));
    }
  }

  method WriteMethods(t: Tables, output: Xml) returns (r: Xml)
    ensures r == output + Concatenated(t.methods, t.order)
  {
    r := output;
    var k := 0;
    while k < |t.order|
      invariant 0 <= k <= |t.order|
      invariant r == output + Concatenated(t.methods, t.order[..k])
    {
      assert t.order[..k + 1][..k] == t.order[..k];
      r := r + if t.order[k] in t.methods then t.methods[t.order[k]] else [];
      k := k + 1;
    }
    assert t.order[..k] == t.order;
  }

  method CloseMethod(hash: Suffix, st: State<Tables>, f: Filed) returns (r: Result<State<Tables>, Error>)
    ensures r == Close(Hashes(hash), st, f)
  {
    var filing := FileMethod(hash, st.book, f.key, f.xml);
    assert f == Filed(f.key, f.xml);
    if filing.Err? {
      return Err(filing.error);
    }
    return Ok(st.(book := filing.value.book, open := None,
                  merged := st.merged + filing.value.merged, renamed := st.renamed + filing.value.renamed));
  }

  /** The body of the script's loop, on the script's variables. */
  method ReadLine(hash: Suffix, st: State<Tables>, line: Line) returns (r: Result<State<Tables>, Error>)
    ensures r == Step(Hashes(hash), st, line)
  {
    var s := st;
    if st.open.Some? {
      var collected := Filed(st.open.value.key, st.open.value.xml + [line]);
      if !line.methodClose {
        return Ok(st.(open := Some(collected)));
      }
      r := CloseMethod(hash, st, collected);
      return;
    }
    if line.classOpen {
      if s.cls.Some? { return Err(NestedClass); }
      if line.name.None? { return Err(MissingAttribute); }
      s := s.(cls := line.name, book := NO_TABLES);
    }
    if s.cls.Some? && line.methodsOpen {
      s := s.(inMethods := true);
    }
    if line.methodOpen {
      if s.cls.None? { return Err(MethodOutsideClass); }
      if line.name.None? || line.signature.None? { return Err(MissingAttribute); }
      var key := Key(s.cls.value, line.name.value, line.signature.value);
      return Ok(s.(open := Some(Filed(key, [line])), total := s.total + 1));
    }
    var output := s.out;
    if s.inMethods && line.methodsClose {
      output := WriteMethods(s.book, output);
    }
    return Ok(s.(out := output + [line],
                 inMethods := s.inMethods && !line.methodsClose,
                 cls := if line.classClose then None else s.cls));
  }

  method NormalizeCobertura(hash: Suffix, input: Xml) returns (r: Result<Normalized, Error>)
    ensures r == Run(hash, input)
  {
    HashesRefineHistory(hash, input);
    ghost var ops := Hashes(hash);
    var st: State<Tables> := Start(NO_TABLES);
    var k := 0;
    assert input[0..] == input;
    while k < |input|
      invariant 0 <= k <= |input|
      invariant RunFrom(ops, st, input[k..]) == RunFrom(ops, Start(NO_TABLES), input)
    {
      var next := ReadLine(hash, st, input[k]);
      if next.Err? {
        return Err(next.error);
      }
      assert input[k..][1..] == input[k + 1..];
      st := next.value;
      k := k + 1;
    }
    return Finish(st);
  }
}
