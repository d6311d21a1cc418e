/** What one pass of the normalizer produces on a well-formed report. */
module CoberturaTheorems {

  import opened Outcomes
  import opened CoberturaLines
  import opened CoberturaMerge
  import opened CoberturaGroups
  import opened CoberturaNormalizer
  import opened CoberturaReport

  // ----- one pass -----

  ghost function LedgerOf(hash: Suffix): (l: Ledger) {
    Ledger(History(hash), seen => MergedCount(seen), seen => RenamedCount(seen))
  }

  function MergedDelta(seen: seq<Filed>, f: Filed): (n: nat) {
    if f.Id() in Ids(seen) then 1 else 0
  }

  ghost function RenamedDelta(seen: seq<Filed>, f: Filed): (n: nat) {
    if f.Id() !in Ids(seen) && KeySeen(seen, f.key) then 1 else 0
  }

  lemma {:induction false} CountsOneMore(seen: seq<Filed>, f: Filed)
    ensures MergedCount(seen + [f]) == MergedCount(seen) + MergedDelta(seen, f)
    ensures RenamedCount(seen + [f]) == RenamedCount(seen) + RenamedDelta(seen, f)
  {
    assert (seen + [f])[..|seen|] == seen;
  }

  /** A method that is not refused joins the history and is counted once. */
  lemma {:induction false} HistoryFilesOne(hash: Suffix, seen: seq<Filed>, f: Filed)
    requires FileInHistory(hash, seen, f).Ok?
    ensures FileInHistory(hash, seen, f) == Ok(Filing(seen + [f], MergedDelta(seen, f), RenamedDelta(seen, f)))
  {
  }

  lemma {:induction false} LedgerFiles(hash: Suffix, seen: seq<Filed>, f: Filed)
    ensures LedgerOf(hash).ops.file(seen, f) == FileInHistory(hash, seen, f)
  {
  }

  lemma {:induction false} LedgerCounts(hash: Suffix, seen: seq<Filed>)
    ensures LedgerOf(hash).merged(seen) == MergedCount(seen) && LedgerOf(hash).renamed(seen) == RenamedCount(seen)
  {
  }

  lemma {:induction false} FilesBy(l: Ledger, seen: seq<Filed>, f: Filed, m: nat, r: nat)
    requires l.merged(seen + [f]) == l.merged(seen) + m && l.renamed(seen + [f]) == l.renamed(seen) + r
    requires l.ops.file(seen, f) == Ok(Filing(seen + [f], m, r))
    ensures l.FilesOne(seen, f)
  {
  }

  lemma {:induction false} FilesOne(hash: Suffix, seen: seq<Filed>, f: Filed)
    requires FileInHistory(hash, seen, f).Ok?
    ensures LedgerOf(hash).FilesOne(seen, f)
  {
    var l, m, r := LedgerOf(hash), MergedDelta(seen, f), RenamedDelta(seen, f);
    assert l.merged(seen + [f]) == l.merged(seen) + m && l.renamed(seen + [f]) == l.renamed(seen) + r by {
      LedgerCounts(hash, seen);
      LedgerCounts(hash, seen + [f]);
      CountsOneMore(seen, f);
    }
    assert l.ops.file(seen, f) == Ok(Filing(seen + [f], m, r)) by {
      LedgerFiles(hash, seen, f);
      HistoryFilesOne(hash, seen, f);
    }
    FilesBy(l, seen, f, m, r);
  }

  lemma {:induction false} LedgerFilesWell(hash: Suffix)
    ensures LedgerOf(hash).FilesWell()
  {
    var l := LedgerOf(hash);
    forall seen, f: Filed | l.ops.file(seen, f).Ok? ensures l.FilesOne(seen, f) {
      LedgerFiles(hash, seen, f);
      FilesOne(hash, seen, f);
    }
  }

  /** Text of a segment once its methods are replaced by what the record emits. */
  function NormalText(l: Ledger, s: Segment): (r: Xml) {
    match s
    case Plain(line) => [line]
    case Bare(lines) => lines
    case Class(head, items, tail) => head + Gaps(items) + l.ops.emit(FiledIn(s)) + tail
  }

  function NormalTexts(l: Ledger, report: seq<Segment>): (r: Xml) {
    if report == [] then [] else NormalText(l, report[0]) + NormalTexts(l, report[1..])
  }

  function Sum(count: seq<Filed> -> nat, report: seq<Segment>): (n: nat) {
    if report == [] then 0 else count(FiledIn(report[0])) + Sum(count, report[1..])
  }

  /** What a segment, and a report, is refused for, if it is. */
  function RefusedIn(l: Ledger, s: Segment): (e: Option<Error>) { Refused(l.ops.file, [], FiledIn(s)) }

  function RefusedBy(l: Ledger): (f: Segment -> Option<Error>) { s => RefusedIn(l, s) }

  function FirstRefusal(refused: Segment -> Option<Error>, report: seq<Segment>): (e: Option<Error>) {
    if report == [] then None
    else if refused(report[0]).Some? then refused(report[0])
    else FirstRefusal(refused, report[1..])
  }

  /** What a run holds between classes. */
  datatype Tally = Tally(seen: seq<Filed>, out: Xml, total: nat, merged: nat, renamed: nat)

  function Between(y: Tally): (st: State<seq<Filed>>) { Outside(y.seen, y.out, y.total, y.merged, y.renamed) }

  /** The tally after a segment that is not refused. */
  function After(l: Ledger, y: Tally, s: Segment): (r: Tally) {
    var fs := FiledIn(s);
    Tally(if s.Plain? then y.seen else fs, y.out + NormalText(l, s), y.total + |fs|,
          y.merged + l.merged(fs), y.renamed + l.renamed(fs))
  }

  function Advance(l: Ledger): (f: (Tally, Segment) -> Tally) { (y, s) => After(l, y, s) }

  function AfterAll<Y>(after: (Y, Segment) -> Y, y: Y, report: seq<Segment>): (r: Y)
    decreases |report|
  {
    if report == [] then y else AfterAll(after, after(y, report[0]), report[1..])
  }

  lemma {:induction false} PlainThen(l: Ledger, y: Tally, s: Segment, rest: Xml)
    requires SegmentOk(s) && s.Plain? && l.FilesWell()
    ensures RunFrom(l.ops, Between(y), RenderSegment(s) + rest) == RunFrom(l.ops, Between(After(l, y, s)), rest)
  {
    assert Step(l.ops, Between(y), s.line) == Ok(Between(After(l, y, s)));
    assert ([s.line] + rest)[0] == s.line && ([s.line] + rest)[1..] == rest;
  }

  lemma {:induction false} BareThen(l: Ledger, y: Tally, s: Segment, rest: Xml)
    requires SegmentOk(s) && s.Bare? && l.FilesWell() && l.ops.empty == []
    ensures RunFrom(l.ops, Between(y), RenderSegment(s) + rest) == RunFrom(l.ops, Between(After(l, y, s)), rest)
  {
    RunOfBare(l.ops, Between(y), s.lines);
    RunOfConcat(l.ops, Between(y), s.lines, rest);
  }

  lemma {:induction false} ClassTally(l: Ledger, y: Tally, s: Segment)
    requires s.Class?
    ensures var fs := FiledIn(s);
            Between(After(l, y, s)) == Outside(fs, y.out + s.head + Gaps(s.items) + l.ops.emit(fs) + s.tail,
                                               y.total + |fs|, y.merged + l.merged(fs), y.renamed + l.renamed(fs))
  {
    AssociativeFour(y.out, s.head, Gaps(s.items), l.ops.emit(FiledIn(s)), s.tail);
  }

  lemma {:induction false} RenderThen(s: Segment, rest: Xml)
    requires s.Class?
    ensures RenderSegment(s) + rest == s.head + (RenderItems(s.items) + (s.tail + rest))
  {
    Associative(s.head + RenderItems(s.items), s.tail, rest);
    Associative(s.head, RenderItems(s.items), s.tail + rest);
  }

  lemma {:induction false} SegmentThen(l: Ledger, y: Tally, s: Segment, rest: Xml)
    requires l.FilesWell() && l.ops.empty == [] && SegmentOk(s)
    ensures RunFrom(l.ops, Between(y), RenderSegment(s) + rest)
            == Unless(RefusedIn(l, s), RunFrom(l.ops, Between(After(l, y, s)), rest))
  {
    if s.Plain? {
      PlainThen(l, y, s, rest);
    } else if s.Bare? {
      BareThen(l, y, s, rest);
    } else {
      RenderThen(s, rest);
      ClassTally(l, y, s);
      ClassThen(l, y.seen, y.out, y.total, y.merged, y.renamed, s.head, s.items, s.tail, rest, FiledIn(s),
                RenderSegment(s) + rest, Between(After(l, y, s)));
    }
  }

  lemma {:induction false} AssociativeFour<T>(a: seq<T>, b: seq<T>, c: seq<T>, d: seq<T>, e: seq<T>)
    ensures a + b + c + d + e == a + (b + c + d + e)
  {
    Associative(a, b, c);
    Associative(a, b + c, d);
    Associative(a, b + c + d, e);
  }

  /** Segment after segment, for any way `run` of continuing from a tally that a segment advances. */
  lemma {:induction false} SegmentBySegment<Y(!new), R>(
      run: (Y, Xml) -> Result<R, Error>, refused: Segment -> Option<Error>, after: (Y, Segment) -> Y,
      y: Y, report: seq<Segment>)
    requires forall y, s, rest | SegmentOk(s) ::
               run(y, RenderSegment(s) + rest) == Unless(refused(s), run(after(y, s), rest))
    requires ReportOk(report)
    ensures run(y, Render(report)) == Unless(FirstRefusal(refused, report), run(AfterAll(after, y, report), []))
    decreases |report|
  {
    if report != [] {
      var s, rest := report[0], Render(report[1..]);
      assert SegmentOk(s) && run(y, RenderSegment(s) + rest) == Unless(refused(s), run(after(y, s), rest));
      SegmentBySegment(run, refused, after, after(y, s), report[1..]);
    }
  }

  lemma {:induction false} RunOfReport(l: Ledger, y: Tally, report: seq<Segment>)
    requires l.FilesWell() && l.ops.empty == [] && ReportOk(report)
    ensures RunFrom(l.ops, Between(y), Render(report))
            == Unless(FirstRefusal(RefusedBy(l), report), Ok(Between(AfterAll(Advance(l), y, report))))
  {
    var run := (y: Tally, text: Xml) => RunFrom(l.ops, Between(y), text);
    forall y, s, rest | SegmentOk(s)
      ensures run(y, RenderSegment(s) + rest) == Unless(RefusedBy(l)(s), run(Advance(l)(y, s), rest))
    {
      SegmentThen(l, y, s, rest);
    }
    SegmentBySegment(run, RefusedBy(l), Advance(l), y, report);
  }

  lemma {:induction false} AfterAllAdds(l: Ledger, y: Tally, report: seq<Segment>)
    ensures var r := AfterAll(Advance(l), y, report);
            && r.out == y.out + NormalTexts(l, report) && r.total == y.total + TotalIn(report)
            && r.merged == y.merged + Sum(l.merged, report) && r.renamed == y.renamed + Sum(l.renamed, report)
    decreases |report|
  {
    if report == [] {
      assert y.out + [] == y.out;
    } else {
      AfterAllAdds(l, After(l, y, report[0]), report[1..]);
      Associative(y.out, NormalText(l, report[0]), NormalTexts(l, report[1..]));
    }
  }

  lemma {:induction false} RunOfWhole(l: Ledger, report: seq<Segment>)
    requires l.FilesWell() && l.ops.empty == [] && ReportOk(report)
    ensures RunWith(l.ops, Render(report))
            == Unless(FirstRefusal(RefusedBy(l), report), Ok(Normalized(NormalTexts(l, report), TotalIn(report),
                                                             Sum(l.merged, report), Sum(l.renamed, report))))
  {
    var y := Tally([], [], 0, 0, 0);
    RunOfReport(l, y, report);
    AfterAllAdds(l, y, report);
    assert [] + NormalTexts(l, report) == NormalTexts(l, report);
  }

  // ----- the same text, as a report -----

  lemma {:induction false} RenderItemsConcat(a: seq<Item>, b: seq<Item>)
    ensures RenderItems(a + b) == RenderItems(a) + RenderItems(b)
  {
    if a == [] {
      assert a + b == b;
    } else {
      assert (a + b)[0] == a[0] && (a + b)[1..] == a[1..] + b;
      RenderItemsConcat(a[1..], b);
      Associative(RenderItem(a[0]), RenderItems(a[1..]), RenderItems(b));
    }
  }

  lemma {:induction false} RenderGapItems(lines: Xml)
    ensures RenderItems(GapItems(lines)) == lines
  {
    if lines != [] {
      assert GapItems(lines)[1..] == GapItems(lines[1..]);
      RenderGapItems(lines[1..]);
      assert lines == [lines[0]] + lines[1..];
    }
  }

  lemma {:induction false} RenderOneMethod(lines: Xml)
    ensures RenderItems([Method(lines)]) == lines
  {
    var items := [Method(lines)];
    assert items[1..] == [];
    assert lines + [] == lines;
  }

  lemma {:induction false} RenderMethodItems(hash: Suffix, seen: seq<Filed>, ids: seq<Identity>)
    ensures RenderItems(MethodItems(hash, seen, ids)) == EmitIds(hash, seen, ids)
    decreases |ids|
  {
    if ids != [] {
      var n := |ids| - 1;
      var last := Method(Survivor(hash, seen, ids[n]));
      RenderMethodItems(hash, seen, ids[..n]);
      assert MethodItems(hash, seen, ids) == MethodItems(hash, seen, ids[..n]) + [last];
      RenderItemsConcat(MethodItems(hash, seen, ids[..n]), [last]);
      RenderOneMethod(last.lines);
    }
  }

  lemma {:induction false} NormalTextIsRendered(hash: Suffix, s: Segment)
    ensures NormalText(LedgerOf(hash), s) == RenderSegment(NormalSegment(hash, s))
  {
    if s.Class? {
      var fs := FiledIn(s);
      RenderItemsConcat(GapItems(Gaps(s.items)), SurvivorItems(hash, fs));
      RenderGapItems(Gaps(s.items));
      RenderMethodItems(hash, fs, Ids(fs));
      Associative(s.head, Gaps(s.items), Emit(hash, fs));
    }
  }

  lemma {:induction false} NormalTextsAreRendered(hash: Suffix, report: seq<Segment>)
    ensures NormalTexts(LedgerOf(hash), report) == Render(NormalReport(hash, report))
    decreases |report|
  {
    if report != [] {
      NormalTextIsRendered(hash, report[0]);
      NormalTextsAreRendered(hash, report[1..]);
      assert NormalReport(hash, report)[1..] == NormalReport(hash, report[1..]);
    }
  }

  lemma {:induction false} SumsAreCounts(hash: Suffix, report: seq<Segment>)
    ensures Sum(LedgerOf(hash).merged, report) == MergedIn(report)
    ensures Sum(LedgerOf(hash).renamed, report) == RenamedIn(report)
    decreases |report|
  {
    if report != [] {
      SumsAreCounts(hash, report[1..]);
    }
  }

  // ----- when a report is refused -----

  /** Filing in turn is not refused exactly if every history on the way is one that filing accepts. */
  lemma {:induction false} RefusedUnless(file: (seq<Filed>, Filed) -> Result<Filing<seq<Filed>>, Error>,
      good: seq<Filed> -> bool, seen: seq<Filed>, todo: seq<Filed>)
    requires good(seen) && (forall s, f | good(s) :: file(s, f).Ok? <==> good(s + [f]))
    requires forall a, b | good(a + b) :: good(a)
    ensures Refused(file, seen, todo).None? <==> good(seen + todo)
    decreases |todo|
  {
    if todo == [] {
      assert seen + todo == seen;
    } else {
      var f, rest := todo[0], todo[1..];
      assert seen + todo == (seen + [f]) + rest;
      assert file(seen, f).Ok? <==> good(seen + [f]);
      if good(seen + [f]) {
        RefusedUnless(file, good, seen + [f], rest);
      }
    }
  }

  /** The reason for a refusal is that of some method after an accepted history. */
  lemma {:induction false} RefusedFor(file: (seq<Filed>, Filed) -> Result<Filing<seq<Filed>>, Error>,
      good: seq<Filed> -> bool, seen: seq<Filed>, todo: seq<Filed>) returns (before: seq<Filed>, f: Filed)
    requires good(seen) && (forall s, f | good(s) :: file(s, f).Ok? <==> good(s + [f]))
    requires Refused(file, seen, todo).Some?
    ensures good(before) && f in todo && file(before, f) == Err(Refused(file, seen, todo).value)
    decreases |todo|
  {
    before, f := seen, todo[0];
    assert file(before, f).Ok? <==> good(seen + [f]);
    if file(before, f).Ok? {
      before, f := RefusedFor(file, good, seen + [f], todo[1..]);
    }
  }

  /** Filing methods in turn is refused unless they are fileable, and for unreadable or conflicting lines only. */
  lemma {:induction false} RefusedIff(hash: Suffix, todo: seq<Filed>)
    ensures var e := Refused(LedgerOf(hash).ops.file, [], todo);
            && (e.None? <==> Fileable(todo))
            && (e.Some? ==> e.value in {MissingAttribute, ConflictingLines, ConflictingBranches})
            && (e == Some(MissingAttribute) ==> !ReadableAll(todo))
  {
    var file, good := LedgerOf(hash).ops.file, (s: seq<Filed>) => Fileable(s);
    forall s, f | good(s) ensures file(s, f).Ok? <==> good(s + [f]) {
      LedgerFiles(hash, s, f);
      FilingSucceedsIff(hash, s, f);
    }
    forall a, b | good(a + b) ensures good(a) {
      FileablePrefix(a, b);
    }
    RefusedUnless(file, good, [], todo);
    assert [] + todo == todo;
    if Refused(file, [], todo).Some? {
      var before, f := RefusedFor(file, good, [], todo);
      LedgerFiles(hash, before, f);
      RefusalKinds(hash, before, f);
    }
  }

  lemma {:induction false} RefusalKinds(hash: Suffix, seen: seq<Filed>, f: Filed)
    requires Fileable(seen)
    ensures var r := FileInHistory(hash, seen, f);
            && (r.Err? ==> r.error in {MissingAttribute, ConflictingLines, ConflictingBranches})
            && (r == Err(MissingAttribute) ==> !Readable(Tags(f.xml)))
  {
    SurvivorIsReadable(hash, seen, f.Id());
  }

  ghost predicate AllFileable(report: seq<Segment>) {
    forall i | 0 <= i < |report| :: Fileable(FiledIn(report[i]))
  }

  ghost predicate AllReadable(report: seq<Segment>) {
    forall i | 0 <= i < |report| :: ReadableAll(FiledIn(report[i]))
  }

  lemma {:induction false} FirstRefusalIff(hash: Suffix, report: seq<Segment>)
    ensures var e := FirstRefusal(RefusedBy(LedgerOf(hash)), report);
            && (e.None? <==> AllFileable(report))
            && (e.Some? ==> e.value in {MissingAttribute, ConflictingLines, ConflictingBranches})
            && (e == Some(MissingAttribute) ==> !AllReadable(report))
    decreases |report|
  {
    if report != [] {
      var fs := FiledIn(report[0]);
      RefusedIff(hash, fs);
      FirstRefusalIff(hash, report[1..]);
      FirstSplits(report);
    }
  }

  lemma FirstSplits(report: seq<Segment>)
    requires report != []
    ensures AllFileable(report) <==> Fileable(FiledIn(report[0])) && AllFileable(report[1..])
    ensures AllReadable(report) <==> ReadableAll(FiledIn(report[0])) && AllReadable(report[1..])
  {
    FirstOf((s: Segment) => Fileable(FiledIn(s)), report);
    FirstOf((s: Segment) => ReadableAll(FiledIn(s)), report);
  }

  lemma FirstOf<T>(p: T -> bool, s: seq<T>)
    requires s != []
    ensures (forall i | 0 <= i < |s| :: p(s[i])) <==> p(s[0]) && forall i | 0 <= i < |s[1..]| :: p(s[1..][i])
  {
    if p(s[0]) && forall i | 0 <= i < |s[1..]| :: p(s[1..][i]) {
      forall i | 0 <= i < |s| ensures p(s[i]) {
        assert i > 0 ==> s[i] == s[1..][i - 1];
      }
    }
  }

  /**
   A pass over a well-formed report succeeds exactly when, in every class, all methods are readable and
   those of one identity have the same lines; on readable methods it otherwise ends in a conflict.
   */
  lemma {:induction false} PassSucceedsIff(hash: Suffix, report: seq<Segment>)
    requires ReportOk(report)
    ensures var r := Run(hash, Render(report));
            && (r.Ok? <==> AllFileable(report))
            && (r.Err? && AllReadable(report) ==> r.error in {ConflictingLines, ConflictingBranches})
            && (r.Err? ==> r.error in {MissingAttribute, ConflictingLines, ConflictingBranches})
  {
    LedgerFilesWell(hash);
    RunOfWhole(LedgerOf(hash), report);
    FirstRefusalIff(hash, report);
  }

  /**
   On every well-formed report whose methods do not conflict one pass writes the report with each class
   normalized, and counts every method, every merged duplicate and every renamed collision.
   */
  lemma {:induction false} NormalizingAReport(hash: Suffix, report: seq<Segment>)
    requires ReportOk(report) && AllFileable(report)
    ensures Run(hash, Render(report))
            == Ok(Normalized(Render(NormalReport(hash, report)), TotalIn(report), MergedIn(report), RenamedIn(report)))
  {
    var l := LedgerOf(hash);
    LedgerFilesWell(hash);
    RunOfWhole(l, report);
    FirstRefusalIff(hash, report);
    NormalTextsAreRendered(hash, report);
    SumsAreCounts(hash, report);
  }
}
