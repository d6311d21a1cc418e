/**
 Well-formed reports: plain lines and class elements, each class holding its methods in one section.
 On these the streaming loop is a transformation of the report, class by class.
 */
module CoberturaReport {

  import opened Outcomes
  import opened CoberturaLines
  import opened CoberturaMerge
  import opened CoberturaGroups
  import opened CoberturaNormalizer

  datatype Item = Gap(line: Line) | Method(lines: Xml)

  datatype Segment =
    | Plain(line: Line)
    | Bare(lines: Xml)                                      // a class element without methods
    | Class(head: Xml, items: seq<Item>, tail: Xml)

  // ----- well-formedness -----

  /** A method element: opening line with its attributes, closing line, nothing closed between. */
  predicate Framed(xml: Xml) {
    && |xml| >= 2
    && xml[0].methodOpen && !xml[0].classOpen && xml[0].nameFirst
    && xml[0].name.Some? && xml[0].signature.Some?
    && xml[|xml| - 1].methodClose
    && (forall i | 0 < i < |xml| - 1 :: !xml[i].methodClose)
  }

  predicate Quiet(l: Line) { !l.classOpen && !l.methodOpen && !l.classClose && !l.methodsClose }

  predicate ItemOk(item: Item) {
    match item
    case Gap(l) => Quiet(l)
    case Method(xml) => Framed(xml)
  }

  ghost predicate ItemsOk(items: seq<Item>) {
    forall i | 0 <= i < |items| :: ItemOk(items[i])
  }

  /** The lines of a class up to its methods; the tags may share a line. */
  ghost predicate HeadOk(head: Xml) {
    && head != [] && head[0].classOpen && head[0].name.Some?
    && !head[0].methodOpen && !head[0].classClose && !head[0].methodsClose
    && (forall i | 0 < i < |head| :: Quiet(head[i]))
    && (exists i :: 0 <= i < |head| && head[i].methodsOpen)
  }

  /** The lines of a class from the end of its methods. */
  ghost predicate TailOk(tail: Xml) {
    && tail != [] && tail[0].methodsClose && tail[|tail| - 1].classClose
    && (forall i | 0 <= i < |tail| - 1 :: !tail[i].classClose)
    && (forall i | 0 <= i < |tail| :: !tail[i].classOpen && !tail[i].methodOpen && !tail[i].methodsOpen)
  }

  /** Whether a section is open after some lines without methods. */
  function OpenAfter(section: bool, lines: Xml): (r: bool)
    decreases |lines|
  {
    if lines == [] then section
    else OpenAfter((section || lines[0].methodsOpen) && !lines[0].methodsClose, lines[1..])
  }

  /** The lines of a class that ends with the last of them. */
  ghost predicate RunsToClose(lines: Xml) {
    && (lines != [] ==> lines[|lines| - 1].classClose)
    && (forall i | 0 <= i < |lines| - 1 :: !lines[i].classClose)
    && (forall i | 0 <= i < |lines| :: !lines[i].classOpen && !lines[i].methodOpen)
  }

  /** A class with no methods; it may have no section, or empty ones, and tags may share a line. */
  ghost predicate BareOk(lines: Xml) {
    && lines != [] && lines[0].classOpen && lines[0].name.Some? && !lines[0].methodOpen
    && (lines[0].classClose <==> |lines| == 1) && RunsToClose(lines[1..])
    && !OpenAfter(false, lines)
  }

  ghost predicate SegmentOk(s: Segment) {
    match s
    case Plain(l) => !l.classOpen && !l.methodOpen
    case Bare(lines) => BareOk(lines)
    case Class(head, items, tail) => HeadOk(head) && ItemsOk(items) && TailOk(tail)
  }

  ghost predicate ReportOk(report: seq<Segment>) {
    forall i | 0 <= i < |report| :: SegmentOk(report[i])
  }

  // ----- text of a report -----

  function RenderItem(item: Item): (r: Xml) {
    match item
    case Gap(l) => [l]
    case Method(xml) => xml
  }

  function RenderItems(items: seq<Item>): (r: Xml) {
    if items == [] then [] else RenderItem(items[0]) + RenderItems(items[1..])
  }

  function RenderSegment(s: Segment): (r: Xml) {
    match s
    case Plain(l) => [l]
    case Bare(lines) => lines
    case Class(head, items, tail) => head + RenderItems(items) + tail
  }

  function Render(report: seq<Segment>): (r: Xml) {
    if report == [] then [] else RenderSegment(report[0]) + Render(report[1..])
  }

  // ----- what normalizing does to a report -----

  function Gaps(items: seq<Item>): (r: Xml) {
    if items == [] then []
    else (match items[0] case Gap(l) => [l] case Method(_) => []) + Gaps(items[1..])
  }

  function ClassName(head: Xml): (name: string) {
    if head != [] && head[0].name.Some? then head[0].name.value else ""
  }

  function HeaderKey(cls: string, xml: Xml): (k: Key) {
    if xml != [] && xml[0].name.Some? && xml[0].signature.Some?
    then Key(cls, xml[0].name.value, xml[0].signature.value)
    else Key(cls, "", "")
  }

  /** The methods of a class, filed under the keys of their opening lines. */
  function Filings(cls: string, items: seq<Item>): (r: seq<Filed>) {
    if items == [] then []
    else (match items[0]
          case Gap(_) => []
          case Method(xml) => [Filed(HeaderKey(cls, xml), xml)]) + Filings(cls, items[1..])
  }

  function GapItems(lines: Xml): (r: seq<Item>) {
    seq(|lines|, i requires 0 <= i < |lines| => Gap(lines[i]))
  }

  ghost function MethodItems(hash: Suffix, seen: seq<Filed>, ids: seq<Identity>): (r: seq<Item>) {
    seq(|ids|, i requires 0 <= i < |ids| => Method(Survivor(hash, seen, ids[i])))
  }

  ghost function SurvivorItems(hash: Suffix, seen: seq<Filed>): (r: seq<Item>) {
    MethodItems(hash, seen, Ids(seen))
  }

  /** Lines between methods move before them; each identity keeps one method. */
  ghost function NormalSegment(hash: Suffix, s: Segment): (r: Segment) {
    match s
    case Plain(_) => s
    case Bare(_) => s
    case Class(head, items, tail) =>
      Class(head, GapItems(Gaps(items)) + SurvivorItems(hash, Filings(ClassName(head), items)), tail)
  }

  ghost function NormalReport(hash: Suffix, report: seq<Segment>): (r: seq<Segment>) {
    seq(|report|, i requires 0 <= i < |report| => NormalSegment(hash, report[i]))
  }

  // ----- counts -----

  function MergedCount(seen: seq<Filed>): (n: nat) {
    if seen == [] then 0
    else
      var init, last := seen[..|seen| - 1], seen[|seen| - 1];
      MergedCount(init) + if last.Id() in Ids(init) then 1 else 0
  }

  ghost function RenamedCount(seen: seq<Filed>): (n: nat) {
    if seen == [] then 0
    else
      var init, last := seen[..|seen| - 1], seen[|seen| - 1];
      RenamedCount(init) + if last.Id() !in Ids(init) && KeySeen(init, last.key) then 1 else 0
  }

  function KeysOf(seen: seq<Filed>): (keys: set<Key>) {
    set f | f in seen :: f.key
  }

  lemma {:induction false} KeysOneMore(init: seq<Filed>, last: Filed)
    ensures |KeysOf(init + [last])| == |KeysOf(init)| + if KeySeen(init, last.key) then 0 else 1
  {
    assert KeysOf(init + [last]) == KeysOf(init) + {last.key};
    assert KeySeen(init, last.key) <==> last.key in KeysOf(init);
  }

  /** Every method is kept or merged, and every identity is the first of its key or renamed. */
  lemma {:induction false} NothingIsLost(seen: seq<Filed>)
    ensures |Ids(seen)| + MergedCount(seen) == |seen|
    ensures |KeysOf(seen)| + RenamedCount(seen) == |Ids(seen)|
  {
    if seen != [] {
      var init, last := seen[..|seen| - 1], seen[|seen| - 1];
      assert seen == init + [last];
      NothingIsLost(init);
      KeysOneMore(init, last);
      if last.Id() in Ids(init) {
        var g := IdHasMethod(init, last.Id());
        assert KeySeen(init, last.key);
      }
    }
  }

  function FiledIn(s: Segment): (r: seq<Filed>) {
    match s
    case Plain(_) => []
    case Bare(_) => []
    case Class(head, items, _) => Filings(ClassName(head), items)
  }

  ghost function TotalIn(report: seq<Segment>): (n: nat) {
    if report == [] then 0 else |FiledIn(report[0])| + TotalIn(report[1..])
  }

  ghost function MergedIn(report: seq<Segment>): (n: nat) {
    if report == [] then 0 else MergedCount(FiledIn(report[0])) + MergedIn(report[1..])
  }

  ghost function RenamedIn(report: seq<Segment>): (n: nat) {
    if report == [] then 0 else RenamedCount(FiledIn(report[0])) + RenamedIn(report[1..])
  }

  // ----- running the machine over a report -----

  lemma {:induction false} RunOfConcat<B>(ops: Book<B>, st: State<B>, a: Xml, b: Xml)
    ensures var r := RunFrom(ops, st, a);
            RunFrom(ops, st, a + b) == if r.Err? then r else RunFrom(ops, r.value, b)
    decreases |a|
  {
    if a == [] {
      assert a + b == b;
    } else {
      assert (a + b)[0] == a[0] && (a + b)[1..] == a[1..] + b;
      var next := Step(ops, st, a[0]);
      if next.Ok? {
        RunOfConcat(ops, next.value, a[1..], b);
      }
    }
  }

  /** Lines that carry no class, method or closing tag are copied. */
  lemma {:induction false} RunOfQuietLines<B>(ops: Book<B>, st: State<B>, lines: Xml)
    requires st.open.None? && st.cls.Some? && forall i | 0 <= i < |lines| :: Quiet(lines[i])
    ensures RunFrom(ops, st, lines)
            == Ok(st.(out := st.out + lines,
                      inMethods := st.inMethods || exists i :: 0 <= i < |lines| && lines[i].methodsOpen))
    decreases |lines|
  {
    if lines == [] {
      assert st.out + lines == st.out;
    } else {
      var s := PlainLine(ops, Entered(ops, st, lines[0]), lines[0]);
      assert s == st.(out := st.out + [lines[0]], inMethods := st.inMethods || lines[0].methodsOpen);
      RunOfQuietLines(ops, s, lines[1..]);
      assert s.out + lines[1..] == st.out + lines;
      assert (exists i :: 0 <= i < |lines| && lines[i].methodsOpen) <==>
             lines[0].methodsOpen || exists i :: 0 <= i < |lines[1..]| && lines[1..][i].methodsOpen by {
        if i :| 0 <= i < |lines| && lines[i].methodsOpen && !lines[0].methodsOpen {
          assert lines[1..][i - 1].methodsOpen;
        }
      }
    }
  }

  lemma OpenedSomewhere(head: Xml)
    requires HeadOk(head)
    ensures head[0].methodsOpen || exists i :: 0 <= i < |head[1..]| && head[1..][i].methodsOpen
  {
    var i :| 0 <= i < |head| && head[i].methodsOpen;
    assert i > 0 ==> head[1..][i - 1].methodsOpen;
  }

  lemma {:induction false} RunOfHead<B>(ops: Book<B>, st: State<B>, head: Xml)
    requires st.open.None? && st.cls.None? && HeadOk(head)
    ensures RunFrom(ops, st, head)
            == Ok(st.(cls := head[0].name, book := ops.empty, inMethods := true, out := st.out + head))
  {
    var s := PlainLine(ops, Entered(ops, st, head[0]), head[0]);
    assert s == st.(cls := head[0].name, book := ops.empty, out := st.out + [head[0]],
                    inMethods := st.inMethods || head[0].methodsOpen);
    var rest := head[1..];
    assert forall i | 0 <= i < |rest| :: rest[i] == head[i + 1];
    RunOfQuietLines(ops, s, rest);
    assert s.out + rest == st.out + head;
    OpenedSomewhere(head);
  }

  lemma {:induction false} RunOfTailRest<B>(ops: Book<B>, st: State<B>, lines: Xml)
    requires st.open.None? && !st.inMethods && st.cls.Some?
    requires lines != [] ==> lines[|lines| - 1].classClose
    requires forall i | 0 <= i < |lines| - 1 :: !lines[i].classClose
    requires forall i | 0 <= i < |lines| :: !lines[i].classOpen && !lines[i].methodOpen && !lines[i].methodsOpen
    ensures RunFrom(ops, st, lines)
            == Ok(st.(out := st.out + lines, cls := if lines == [] then st.cls else None))
    decreases |lines|
  {
    if lines == [] {
      assert st.out + lines == st.out;
    } else {
      var s := PlainLine(ops, Entered(ops, st, lines[0]), lines[0]);
      assert s == st.(out := st.out + [lines[0]], cls := if lines[0].classClose then None else st.cls);
      assert RunFrom(ops, st, lines) == RunFrom(ops, s, lines[1..]);
      if |lines| > 1 {
        RunOfTailRest(ops, s, lines[1..]);
      } else {
        assert lines[1..] == [] && lines == [lines[0]];
      }
      assert s.out + lines[1..] == st.out + lines;
    }
  }

  lemma {:induction false} RunOfTail<B>(ops: Book<B>, st: State<B>, tail: Xml)
    requires st.open.None? && st.inMethods && st.cls.Some? && TailOk(tail)
    ensures RunFrom(ops, st, tail)
            == Ok(st.(out := st.out + ops.emit(st.book) + tail, inMethods := false, cls := None))
  {
    var s := PlainLine(ops, Entered(ops, st, tail[0]), tail[0]);
    assert s == st.(out := st.out + ops.emit(st.book) + [tail[0]], inMethods := false,
                    cls := if tail[0].classClose then None else st.cls);
    assert RunFrom(ops, st, tail) == RunFrom(ops, s, tail[1..]);
    if |tail| > 1 {
      RunOfTailRest(ops, s, tail[1..]);
    } else {
      assert tail[1..] == [] && tail == [tail[0]];
    }
    assert s.out + tail[1..] == st.out + ops.emit(st.book) + tail;
  }

  /** Lines of a class without methods are copied; a section that closes writes an empty record. */
  lemma {:induction false} RunToClose<B>(ops: Book<B>, st: State<B>, lines: Xml)
    requires st.open.None? && st.cls.Some? && ops.emit(st.book) == [] && RunsToClose(lines)
    ensures RunFrom(ops, st, lines)
            == Ok(st.(out := st.out + lines, inMethods := OpenAfter(st.inMethods, lines),
                      cls := if lines == [] then st.cls else None))
    decreases |lines|
  {
    if lines == [] {
      assert st.out + lines == st.out;
    } else {
      var line, rest := lines[0], lines[1..];
      var s := PlainLine(ops, Entered(ops, st, line), line);
      assert st.out + [] == st.out;
      assert s == st.(out := st.out + [line], cls := if line.classClose then None else st.cls,
                      inMethods := (st.inMethods || line.methodsOpen) && !line.methodsClose);
      assert s.out + rest == st.out + lines;
      if rest == [] {
        assert s.out + rest == s.out && RunFrom(ops, st, lines) == RunFrom(ops, s, rest) == Ok(s);
      } else {
        RunToClose(ops, s, rest);
      }
    }
  }

  lemma {:induction false} RunOfBare<B>(ops: Book<B>, st: State<B>, lines: Xml)
    requires st.open.None? && st.cls.None? && !st.inMethods && ops.emit(ops.empty) == [] && BareOk(lines)
    ensures RunFrom(ops, st, lines) == Ok(st.(book := ops.empty, out := st.out + lines))
  {
    var line, rest := lines[0], lines[1..];
    var s := PlainLine(ops, Entered(ops, st, line), line);
    assert st.out + [] == st.out;
    assert s == st.(cls := if line.classClose then None else line.name, book := ops.empty, out := st.out + [line],
                    inMethods := line.methodsOpen && !line.methodsClose);
    assert s.out + rest == st.out + lines;
    assert OpenAfter(false, lines) == OpenAfter(s.inMethods, rest);
    if rest == [] {
      assert s.out + rest == s.out && RunFrom(ops, st, lines) == RunFrom(ops, s, rest) == Ok(s);
    } else {
      RunToClose(ops, s, rest);
    }
  }

  /** The lines of a method are collected up to its closing line. */
  lemma {:induction false} RunOfBody<B>(ops: Book<B>, st: State<B>, key: Key, done: Xml, todo: Xml)
    requires st.open == Some(Filed(key, done)) && todo != []
    requires todo[|todo| - 1].methodClose && forall i | 0 <= i < |todo| - 1 :: !todo[i].methodClose
    ensures RunFrom(ops, st, todo) == Close(ops, st, Filed(key, done + todo))
    decreases |todo|
  {
    var f := Filed(key, done + [todo[0]]);
    if |todo| == 1 {
      assert done + todo == f.xml;
      assert todo[1..] == [];
      var r := Close(ops, st, f);
      assert r.Ok? ==> RunFrom(ops, r.value, todo[1..]) == r;
    } else {
      var s := st.(open := Some(f));
      RunOfBody(ops, s, key, f.xml, todo[1..]);
      assert f.xml + todo[1..] == done + todo;
      assert Close(ops, s, Filed(key, done + todo)) == Close(ops, st, Filed(key, done + todo));
    }
  }

  lemma {:induction false} RunOfMethod<B>(ops: Book<B>, st: State<B>, xml: Xml)
    requires st.open.None? && st.cls.Some? && st.inMethods && Framed(xml)
    ensures RunFrom(ops, st, xml)
            == Close(ops, st.(total := st.total + 1), Filed(HeaderKey(st.cls.value, xml), xml))
  {
    var key := HeaderKey(st.cls.value, xml);
    var s := st.(open := Some(Filed(key, [xml[0]])), total := st.total + 1);
    assert Step(ops, st, xml[0]) == Ok(s);
    RunOfBody(ops, s, key, [xml[0]], xml[1..]);
    assert [xml[0]] + xml[1..] == xml;
  }

  // ----- which methods a class can hold -----

  /** The methods of a class can be filed: all are readable, and those of one identity have the same line shapes. */
  ghost predicate Fileable(seen: seq<Filed>) {
    ReadableAll(seen) && Consistent(seen)
  }

  lemma {:induction false} FileablePrefix(a: seq<Filed>, b: seq<Filed>)
    requires Fileable(a + b)
    ensures Fileable(a)
  {
    assert forall f | f in a :: f in a + b;
  }

  /** Shapes agree with one method of an identity exactly if they agree with all. */
  lemma {:induction false} ConsistentOneMore(seen: seq<Filed>, f: Filed, g: Filed)
    requires Consistent(seen) && g in seen && g.Id() == f.Id()
    ensures Consistent(seen + [f]) <==> Mergeable(g.xml, f.xml)
  {
    assert f in seen + [f] && g in seen + [f];
    if Mergeable(g.xml, f.xml) {
      forall x, y | x in seen + [f] && y in seen + [f] && x.Id() == y.Id() ensures Mergeable(x.xml, y.xml) {
        assert x in seen ==> (x.Id() == g.Id() ==> Mergeable(x.xml, g.xml));
        assert y in seen ==> (y.Id() == g.Id() ==> Mergeable(y.xml, g.xml));
      }
    }
  }

  lemma {:induction false} ConsistentWithNew(seen: seq<Filed>, f: Filed)
    requires Consistent(seen) && f.Id() !in Ids(seen)
    ensures Consistent(seen + [f])
  {
    forall x, y | x in seen + [f] && y in seen + [f] && x.Id() == y.Id() ensures Mergeable(x.xml, y.xml) {
      if x in seen { IdIsListed(seen, x); }
      if y in seen { IdIsListed(seen, y); }
    }
  }

  /** A merge finds no conflict with what an identity holds exactly if it finds none with any of its methods. */
  lemma {:induction false} ConflictOfSurvivor(hash: Suffix, seen: seq<Filed>, f: Filed, g: Filed)
    requires Fileable(seen) && g in seen && g.Id() == f.Id() && Readable(Tags(f.xml))
    ensures Conflict(Survivor(hash, seen, f.Id()), f.xml).None? <==> Mergeable(g.xml, f.xml)
  {
    SurvivorIsReadable(hash, seen, f.Id());
    SurvivorKeepsShape(hash, seen, g);
  }

  /** Filing a method succeeds exactly if the methods up to it are fileable. */
  lemma {:induction false} FilingSucceedsIff(hash: Suffix, seen: seq<Filed>, f: Filed)
    requires Fileable(seen)
    ensures FileInHistory(hash, seen, f).Ok? <==> Fileable(seen + [f])
  {
    assert f in seen + [f] && forall x | x in seen :: x in seen + [f];
    if Readable(Tags(f.xml)) {
      assert ReadableAll(seen + [f]);
      if f.Id() in Ids(seen) {
        var g := IdHasMethod(seen, f.Id());
        ConflictOfSurvivor(hash, seen, f, g);
        ConsistentOneMore(seen, f, g);
      } else {
        ConsistentWithNew(seen, f);
      }
    }
  }

  // ----- running the machine over the methods of a class -----

  /** What filing the methods in turn is refused for, if it is. */
  function Refused(file: (seq<Filed>, Filed) -> Result<Filing<seq<Filed>>, Error>, seen: seq<Filed>,
      todo: seq<Filed>): (e: Option<Error>)
    decreases |todo|
  {
    if todo == [] then None
    else
      match file(seen, todo[0])
      case Err(e) => Some(e)
      case Ok(_) => Refused(file, seen + [todo[0]], todo[1..])
  }

  /** The result of a run, unless it was refused before. */
  function Unless<T>(e: Option<Error>, r: Result<T, Error>): (q: Result<T, Error>) {
    if e.Some? then Err(e.value) else r
  }

  /**
   A record of the current class and how it counts its methods. The run over a section needs no more
   than that a method which is not refused joins the record and is counted as said.
   */
  datatype Ledger = Ledger(ops: Book<seq<Filed>>, merged: seq<Filed> -> nat, renamed: seq<Filed> -> nat)
  {
    ghost predicate FilesOne(seen: seq<Filed>, f: Filed) {
      && merged(seen) <= merged(seen + [f]) && renamed(seen) <= renamed(seen + [f])
      && ops.file(seen, f)
         == Ok(Filing(seen + [f], merged(seen + [f]) - merged(seen), renamed(seen + [f]) - renamed(seen)))
    }

    ghost predicate FilesWell() {
      && merged([]) == 0 && renamed([]) == 0 && ops.emit([]) == []
      && forall seen, f: Filed | ops.file(seen, f).Ok? :: FilesOne(seen, f)
    }

    /** A state inside a section, with counters that include the current class. */
    function Inside(cls: string, seen: seq<Filed>, out: Xml, t: nat, m: nat, r: nat): (st: State<seq<Filed>>) {
      State(Some(cls), seen, None, true, out, t + |seen|, m + merged(seen), r + renamed(seen))
    }
  }

  lemma {:induction false} RunOfOneMethod(l: Ledger, cls: string, seen: seq<Filed>, out: Xml, t: nat, m: nat, r: nat,
      f: Filed)
    requires Framed(f.xml) && f.key == HeaderKey(cls, f.xml) && l.FilesOne(seen, f)
    ensures RunFrom(l.ops, l.Inside(cls, seen, out, t, m, r), f.xml) == Ok(l.Inside(cls, seen + [f], out, t, m, r))
  {
    RunOfMethod(l.ops, l.Inside(cls, seen, out, t, m, r), f.xml);
    assert f == Filed(HeaderKey(cls, f.xml), f.xml);
  }

  lemma {:induction false} MethodThen(l: Ledger, cls: string, seen: seq<Filed>, out: Xml, t: nat, m: nat, r: nat,
      f: Filed, rest: Xml)
    requires Framed(f.xml) && f.key == HeaderKey(cls, f.xml) && l.FilesOne(seen, f)
    ensures RunFrom(l.ops, l.Inside(cls, seen, out, t, m, r), f.xml + rest)
            == RunFrom(l.ops, l.Inside(cls, seen + [f], out, t, m, r), rest)
  {
    RunOfConcat(l.ops, l.Inside(cls, seen, out, t, m, r), f.xml, rest);
    RunOfOneMethod(l, cls, seen, out, t, m, r, f);
  }

  lemma {:induction false} GapThen(l: Ledger, cls: string, seen: seq<Filed>, out: Xml, t: nat, m: nat, r: nat,
      line: Line, rest: Xml)
    requires Quiet(line)
    ensures RunFrom(l.ops, l.Inside(cls, seen, out, t, m, r), [line] + rest)
            == RunFrom(l.ops, l.Inside(cls, seen, out + [line], t, m, r), rest)
  {
    RunOfConcat(l.ops, l.Inside(cls, seen, out, t, m, r), [line], rest);
    RunOfQuietLines(l.ops, l.Inside(cls, seen, out, t, m, r), [line]);
  }

  /** A refused method ends the run. */
  lemma {:induction false} RefusalEnds(l: Ledger, cls: string, seen: seq<Filed>, out: Xml, t: nat, m: nat, r: nat,
      f: Filed, rest: Xml)
    requires Framed(f.xml) && f.key == HeaderKey(cls, f.xml) && l.ops.file(seen, f).Err?
    ensures RunFrom(l.ops, l.Inside(cls, seen, out, t, m, r), f.xml + rest) == Err(l.ops.file(seen, f).error)
  {
    RunOfConcat(l.ops, l.Inside(cls, seen, out, t, m, r), f.xml, rest);
    RunOfMethod(l.ops, l.Inside(cls, seen, out, t, m, r), f.xml);
    assert f == Filed(HeaderKey(cls, f.xml), f.xml);
  }

  lemma {:induction false} RunOfItems(l: Ledger, cls: string, seen: seq<Filed>, out: Xml, t: nat, m: nat, r: nat,
                                      items: seq<Item>, rest: Xml)
    requires l.FilesWell() && ItemsOk(items)
    ensures RunFrom(l.ops, l.Inside(cls, seen, out, t, m, r), RenderItems(items) + rest)
            == Unless(Refused(l.ops.file, seen, Filings(cls, items)),
                   RunFrom(l.ops, l.Inside(cls, seen + Filings(cls, items), out + Gaps(items), t, m, r), rest))
    decreases |items|
  {
    if items == [] {
      assert seen + [] == seen && out + [] == out && RenderItems(items) + rest == rest;
    } else {
      var more, item := RenderItems(items[1..]) + rest, items[0];
      assert ItemOk(item);
      Associative(RenderItem(item), RenderItems(items[1..]), rest);
      if item.Gap? {
        GapFirst(cls, items);
        Associative(out, [item.line], Gaps(items[1..]));
        GapThen(l, cls, seen, out, t, m, r, item.line, more);
        RunOfItems(l, cls, seen, out + [item.line], t, m, r, items[1..], rest);
      } else {
        var f := Filed(HeaderKey(cls, item.lines), item.lines);
        MethodFirst(cls, items);
        FirstRefused(l.ops.file, seen, f, Filings(cls, items[1..]));
        if l.ops.file(seen, f).Err? {
          RefusalEnds(l, cls, seen, out, t, m, r, f, more);
        } else {
          Associative(seen, [f], Filings(cls, items[1..]));
          MethodThen(l, cls, seen, out, t, m, r, f, more);
          RunOfItems(l, cls, seen + [f], out, t, m, r, items[1..], rest);
        }
      }
    }
  }

  lemma {:induction false} FirstRefused(file: (seq<Filed>, Filed) -> Result<Filing<seq<Filed>>, Error>,
      seen: seq<Filed>, f: Filed, todo: seq<Filed>)
    ensures Refused(file, seen, [f] + todo)
         == match file(seen, f) { case Err(e) => Some(e) case Ok(_) => Refused(file, seen + [f], todo) }
  {
    assert ([f] + todo)[0] == f && ([f] + todo)[1..] == todo;
  }

  lemma {:induction false} GapFirst(cls: string, items: seq<Item>)
    requires items != [] && items[0].Gap?
    ensures Filings(cls, items) == Filings(cls, items[1..])
    ensures Gaps(items) == [items[0].line] + Gaps(items[1..])
  {
  }

  lemma {:induction false} MethodFirst(cls: string, items: seq<Item>)
    requires items != [] && items[0].Method?
    ensures Filings(cls, items) == [Filed(HeaderKey(cls, items[0].lines), items[0].lines)] + Filings(cls, items[1..])
    ensures Gaps(items) == Gaps(items[1..])
  {
  }

  lemma {:induction false} Associative<T>(a: seq<T>, b: seq<T>, c: seq<T>)
    ensures (a + b) + c == a + (b + c)
  {
  }

  /** A state between classes. */
  function Outside(seen: seq<Filed>, out: Xml, t: nat, m: nat, r: nat): (st: State<seq<Filed>>) {
    State(None, seen, None, false, out, t, m, r)
  }

  lemma {:induction false} HeadThen(l: Ledger, before: seq<Filed>, out: Xml, t: nat, m: nat, r: nat, head: Xml,
      rest: Xml)
    requires l.FilesWell() && l.ops.empty == [] && HeadOk(head)
    ensures RunFrom(l.ops, Outside(before, out, t, m, r), head + rest)
            == RunFrom(l.ops, l.Inside(ClassName(head), [], out + head, t, m, r), rest)
  {
    RunOfConcat(l.ops, Outside(before, out, t, m, r), head, rest);
    RunOfHead(l.ops, Outside(before, out, t, m, r), head);
  }

  lemma {:induction false} TailThen(l: Ledger, cls: string, fs: seq<Filed>, out: Xml, t: nat, m: nat, r: nat,
      tail: Xml, rest: Xml)
    requires TailOk(tail)
    ensures RunFrom(l.ops, l.Inside(cls, fs, out, t, m, r), tail + rest)
            == RunFrom(l.ops, Outside(fs, out + l.ops.emit(fs) + tail,
                                      t + |fs|, m + l.merged(fs), r + l.renamed(fs)), rest)
  {
    RunOfConcat(l.ops, l.Inside(cls, fs, out, t, m, r), tail, rest);
    RunOfTail(l.ops, l.Inside(cls, fs, out, t, m, r), tail);
  }

  lemma {:induction false} SectionThen(l: Ledger, before: seq<Filed>, out: Xml, t: nat, m: nat, r: nat,
                                       head: Xml, items: seq<Item>, rest: Xml)
    requires l.FilesWell() && l.ops.empty == [] && HeadOk(head) && ItemsOk(items)
    ensures var fs := Filings(ClassName(head), items);
            RunFrom(l.ops, Outside(before, out, t, m, r), head + (RenderItems(items) + rest))
            == Unless(Refused(l.ops.file, [], fs),
                   RunFrom(l.ops, l.Inside(ClassName(head), fs, out + head + Gaps(items), t, m, r), rest))
  {
    var cls := ClassName(head);
    HeadThen(l, before, out, t, m, r, head, RenderItems(items) + rest);
    RunOfItems(l, cls, [], out + head, t, m, r, items, rest);
    assert [] + Filings(cls, items) == Filings(cls, items);
  }

  /** The run over a class, for a text and an end that are given as they are. */
  lemma {:induction false} ClassThen(l: Ledger, before: seq<Filed>, out: Xml, t: nat, m: nat, r: nat, head: Xml,
      items: seq<Item>, tail: Xml, rest: Xml, fs: seq<Filed>, text: Xml, end: State<seq<Filed>>)
    requires l.FilesWell() && l.ops.empty == []
    requires HeadOk(head) && ItemsOk(items) && TailOk(tail)
    requires fs == Filings(ClassName(head), items) && text == head + (RenderItems(items) + (tail + rest))
    requires end == Outside(fs, out + head + Gaps(items) + l.ops.emit(fs) + tail,
                            t + |fs|, m + l.merged(fs), r + l.renamed(fs))
    ensures RunFrom(l.ops, Outside(before, out, t, m, r), text)
            == Unless(Refused(l.ops.file, [], fs), RunFrom(l.ops, end, rest))
  {
    SectionThen(l, before, out, t, m, r, head, items, tail + rest);
    if Refused(l.ops.file, [], fs).None? {
      TailThen(l, ClassName(head), fs, out + head + Gaps(items), t, m, r, tail, rest);
    }
  }
}
