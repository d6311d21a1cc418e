/** What a report is refused for when it ends early, or when a tag is out of place. */
module CoberturaBroken {

  import opened Outcomes
  import opened CoberturaLines
  import opened CoberturaMerge
  import opened CoberturaGroups
  import opened CoberturaNormalizer
  import opened CoberturaReport
  import opened CoberturaTheorems

  // ----- a run that goes on after a report -----

  /** The outcome of a run that has read everything. */
  function Ended<B>(r: Result<State<B>, Error>): (q: Result<Normalized, Error>) {
    if r.Err? then Err(r.error) else Finish(r.value)
  }

  lemma {:induction false} ReportThen(l: Ledger, report: seq<Segment>, rest: Xml) returns (y: Tally)
    requires l.FilesWell() && l.ops.empty == [] && ReportOk(report) && FirstRefusal(RefusedBy(l), report).None?
    ensures RunWith(l.ops, Render(report) + rest) == Ended(RunFrom(l.ops, Between(y), rest))
  {
    var first := Tally([], [], 0, 0, 0);
    RunOfReport(l, first, report);
    y := AfterAll(Advance(l), first, report);
    RunOfConcat(l.ops, Between(first), Render(report), rest);
  }

  /** A run over a report that is accepted and what follows it, from a state between classes. */
  lemma {:induction false} AfterReport(hash: Suffix, report: seq<Segment>, rest: Xml) returns (l: Ledger, y: Tally)
    requires ReportOk(report) && AllFileable(report)
    ensures l.FilesWell() && l.ops.empty == [] && l == LedgerOf(hash)
    ensures Run(hash, Render(report) + rest) == Ended(RunFrom(l.ops, Between(y), rest))
  {
    l := LedgerOf(hash);
    LedgerFilesWell(hash);
    FirstRefusalIff(hash, report);
    y := ReportThen(l, report, rest);
  }

  /** The same up to the middle of a section. */
  lemma {:induction false} AfterSection(hash: Suffix, report: seq<Segment>, head: Xml, items: seq<Item>, rest: Xml)
    returns (l: Ledger, st: State<seq<Filed>>)
    requires ReportOk(report) && AllFileable(report)
    requires HeadOk(head) && ItemsOk(items) && Fileable(Filings(ClassName(head), items))
    ensures st.open.None? && st.inMethods && st.cls.Some?
    ensures Run(hash, Render(report) + (head + (RenderItems(items) + rest))) == Ended(RunFrom(l.ops, st, rest))
  {
    var y: Tally;
    l, y := AfterReport(hash, report, head + (RenderItems(items) + rest));
    var cls, fs := ClassName(head), Filings(ClassName(head), items);
    RefusedIff(hash, fs);
    SectionThen(l, y.seen, y.out, y.total, y.merged, y.renamed, head, items, rest);
    st := l.Inside(cls, fs, y.out + head + Gaps(items), y.total, y.merged, y.renamed);
  }

  // ----- reports that end early -----

  lemma {:induction false} MethodStaysOpen<B>(ops: Book<B>, st: State<B>, lines: Xml)
    requires st.open.Some? && forall i | 0 <= i < |lines| :: !lines[i].methodClose
    ensures Ended(RunFrom(ops, st, lines)) == Err(UnterminatedMethod)
    decreases |lines|
  {
    if lines != [] {
      var f := Filed(st.open.value.key, st.open.value.xml + [lines[0]]);
      MethodStaysOpen(ops, st.(open := Some(f)), lines[1..]);
    }
  }

  /** A report that ends in the middle of a method, or in a section but outside its methods. */
  lemma {:induction false} CutInSection(hash: Suffix, report: seq<Segment>, head: Xml, items: seq<Item>, xml: Xml,
      n: nat)
    requires ReportOk(report) && AllFileable(report)
    requires HeadOk(head) && ItemsOk(items) && Fileable(Filings(ClassName(head), items))
    requires Framed(xml) && n < |xml|
    ensures Run(hash, Render(report) + (head + (RenderItems(items) + xml[..n])))
         == Err(if n == 0 then UnterminatedMethods else UnterminatedMethod)
  {
    var l, st := AfterSection(hash, report, head, items, xml[..n]);
    if n > 0 {
      var first, rest := xml[..n][0], xml[..n][1..];
      var s := Step(l.ops, st, first);
      assert s.Ok? && s.value.open.Some?;
      forall i | 0 <= i < |rest| ensures !rest[i].methodClose {
        assert rest[i] == xml[i + 1];
      }
      MethodStaysOpen(l.ops, s.value, rest);
    }
  }

  lemma {:induction false} ClassStaysOpen<B>(ops: Book<B>, st: State<B>, lines: Xml)
    requires st.open.None? && st.cls.Some? && !st.inMethods
    requires forall i | 0 <= i < |lines| ::
               !lines[i].classOpen && !lines[i].methodOpen && !lines[i].methodsOpen && !lines[i].classClose
    ensures Ended(RunFrom(ops, st, lines)) == Err(UnterminatedClass)
    decreases |lines|
  {
    if lines != [] {
      ClassStaysOpen(ops, PlainLine(ops, Entered(ops, st, lines[0]), lines[0]), lines[1..]);
    }
  }

  /** A report that ends after the methods of a class and before the end of the class. */
  lemma {:induction false} CutInTail(hash: Suffix, report: seq<Segment>, head: Xml, items: seq<Item>, tail: Xml, n: nat)
    requires ReportOk(report) && AllFileable(report)
    requires HeadOk(head) && ItemsOk(items) && Fileable(Filings(ClassName(head), items))
    requires TailOk(tail) && 0 < n < |tail|
    ensures Run(hash, Render(report) + (head + (RenderItems(items) + tail[..n]))) == Err(UnterminatedClass)
  {
    var l, st := AfterSection(hash, report, head, items, tail[..n]);
    var first, rest := tail[..n][0], tail[..n][1..];
    forall i | 0 <= i < |rest|
      ensures !rest[i].classOpen && !rest[i].methodOpen && !rest[i].methodsOpen && !rest[i].classClose
    {
      assert rest[i] == tail[i + 1];
    }
    ClassStaysOpen(l.ops, PlainLine(l.ops, Entered(l.ops, st, first), first), rest);
  }

  lemma {:induction false} HeadStaysOpen<B>(ops: Book<B>, st: State<B>, head: Xml, n: nat)
    requires st.open.None? && st.cls.None? && !st.inMethods && HeadOk(head) && 0 < n <= |head|
    ensures Ended(RunFrom(ops, st, head[..n]))
         == Err(if exists i :: 0 <= i < n && head[i].methodsOpen then UnterminatedMethods else UnterminatedClass)
  {
    var part := head[..n];
    var s, rest := PlainLine(ops, Entered(ops, st, part[0]), part[0]), part[1..];
    assert forall i | 0 <= i < |rest| :: rest[i] == head[i + 1];
    RunOfQuietLines(ops, s, rest);
    if i :| 0 <= i < n && head[i].methodsOpen {
      assert i > 0 ==> rest[i - 1].methodsOpen;
    }
  }

  /** A report that ends among the first lines of a class. */
  lemma {:induction false} CutInHead(hash: Suffix, report: seq<Segment>, head: Xml, n: nat)
    requires ReportOk(report) && AllFileable(report) && HeadOk(head) && 0 < n <= |head|
    ensures Run(hash, Render(report) + head[..n])
         == Err(if exists i :: 0 <= i < n && head[i].methodsOpen then UnterminatedMethods else UnterminatedClass)
  {
    var l, y := AfterReport(hash, report, head[..n]);
    HeadStaysOpen(l.ops, Between(y), head, n);
  }

  // ----- tags out of place -----

  /** What a line between classes is refused for. */
  predicate RefusedBetween(line: Line, e: Error) {
    || (line.classOpen && line.name.None? && e == MissingAttribute)
    || (!line.classOpen && line.methodOpen && e == MethodOutsideClass)
  }

  /** What a line between the methods of a class is refused for. */
  predicate RefusedWithin(line: Line, e: Error) {
    || (line.classOpen && e == NestedClass)
    || (!line.classOpen && line.methodOpen && (line.name.None? || line.signature.None?) && e == MissingAttribute)
  }

  lemma StepFirst<B>(ops: Book<B>, st: State<B>, line: Line, rest: Xml, e: Error)
    requires Step(ops, st, line) == Err(e)
    ensures Ended(RunFrom(ops, st, [line] + rest)) == Err(e)
  {
    assert ([line] + rest)[0] == line;
  }

  /** A method outside a class, or a class without a name, ends the pass whatever follows. */
  lemma {:induction false} MisplacedBetween(hash: Suffix, report: seq<Segment>, line: Line, rest: Xml, e: Error)
    requires ReportOk(report) && AllFileable(report) && RefusedBetween(line, e)
    ensures Run(hash, Render(report) + ([line] + rest)) == Err(e)
  {
    var l, y := AfterReport(hash, report, [line] + rest);
    StepFirst(l.ops, Between(y), line, rest, e);
  }

  /** A class inside a class, or a method without a name or a signature, ends the pass whatever follows. */
  lemma {:induction false} MisplacedWithin(hash: Suffix, report: seq<Segment>, head: Xml, items: seq<Item>, line: Line,
      rest: Xml, e: Error)
    requires ReportOk(report) && AllFileable(report)
    requires HeadOk(head) && ItemsOk(items) && Fileable(Filings(ClassName(head), items)) && RefusedWithin(line, e)
    ensures Run(hash, Render(report) + (head + (RenderItems(items) + ([line] + rest)))) == Err(e)
  {
    var l, st := AfterSection(hash, report, head, items, [line] + rest);
    StepFirst(l.ops, st, line, rest, e);
  }
}
