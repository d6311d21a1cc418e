/** Reports at which the normalizer falls short of what one would expect of it. */
module CoberturaExamples {

  import opened Outcomes
  import opened CoberturaLines
  import opened CoberturaMerge
  import opened CoberturaGroups
  import opened CoberturaNormalizer
  import opened CoberturaReport
  import opened CoberturaTheorems
  import opened CoberturaIdempotence

  // ----- reports of one class -----

  const BLANK := Line("", false, false, false, false, false, false, false, None, None, NoTag, None, None)

  function Opening(name: string): (l: Line) {
    BLANK.(methodOpen := true, nameFirst := true, name := Some(name), signature := Some(""))
  }

  function MethodText(name: string, tags: seq<CoverTag>): (xml: Xml)
    ensures |xml| == |tags| + 2
  {
    [Opening(name)] + seq(|tags|, i requires 0 <= i < |tags| => BLANK.(tag := tags[i])) + [BLANK.(methodClose := true)]
  }

  function ClassOf(items: seq<Item>): (s: Segment) {
    Class([BLANK.(classOpen := true, methodsOpen := true, name := Some("c"))], items,
          [BLANK.(methodsClose := true, classClose := true)])
  }

  function Padded(tags: seq<CoverTag>): (t: seq<CoverTag>) { [NoTag] + tags + [NoTag] }

  lemma {:induction false} LeadingLine(tags: seq<CoverTag>)
    ensures Numbers([NoTag] + tags) == Numbers(tags) && Lookup([NoTag] + tags) == Lookup(tags)
  {
    if tags == [] {
      assert ([NoTag] + tags)[..0] == [];
    } else {
      var init := tags[..|tags| - 1];
      LeadingLine(init);
      assert ([NoTag] + tags)[..|tags|] == [NoTag] + init;
    }
  }

  lemma {:induction false} PaddingIsNoLine(tags: seq<CoverTag>)
    ensures Numbers(Padded(tags)) == Numbers(tags) && Lookup(Padded(tags)) == Lookup(tags)
  {
    var t := Padded(tags);
    assert t[..|t| - 1] == [NoTag] + tags && t[|t| - 1] == NoTag;
    LeadingLine(tags);
  }

  lemma {:induction false} PaddingKeepsShapes(tags: seq<CoverTag>)
    ensures Structure(Padded(tags)) == Structure(tags)
  {
    PaddingIsNoLine(tags);
    assert Shapes(Padded(tags)) == Shapes(tags);
  }

  lemma {:induction false} PaddingKeepsLines(tags: seq<CoverTag>)
    ensures Readable(tags) ==> Readable(Padded(tags))
    ensures AllSeparable(tags) ==> AllSeparable(Padded(tags))
    ensures DistinctNumbers(tags) ==> DistinctNumbers(Padded(tags))
  {
    var t := Padded(tags);
    assert t[0] == NoTag && t[|t| - 1] == NoTag && forall i | 0 < i < |t| - 1 :: t[i] == tags[i - 1];
  }

  lemma {:induction false} TagsOfMethodText(name: string, tags: seq<CoverTag>)
    ensures Tags(MethodText(name, tags)) == Padded(tags)
  {
  }

  lemma {:induction false} MethodTextIsFramed(name: string, tags: seq<CoverTag>)
    ensures Framed(MethodText(name, tags)) && HeaderKey("c", MethodText(name, tags)) == Key("c", name, "")
  {
    var xml := MethodText(name, tags);
    forall i | 0 < i < |xml| - 1 ensures !xml[i].methodClose {
      assert xml[i] == BLANK.(tag := tags[i - 1]);
    }
  }

  /** A method of the class `c`, as filed from its text. */
  ghost predicate OfClass(f: Filed) { Framed(f.xml) && f.key == HeaderKey("c", f.xml) }

  /** A method element with a given name and given lines. */
  lemma {:induction false} MethodWith(name: string, tags: seq<CoverTag>) returns (f: Filed)
    ensures OfClass(f) && f.Id() == Identity(Key("c", name, ""), Structure(tags))
    ensures Numbers(Tags(f.xml)) == Numbers(tags)
    ensures Readable(tags) ==> Readable(Tags(f.xml))
    ensures AllSeparable(tags) ==> AllSeparable(Tags(f.xml))
    ensures DistinctNumbers(tags) ==> DistinctNumbers(Tags(f.xml))
  {
    f := Filed(Key("c", name, ""), MethodText(name, tags));
    MethodTextIsFramed(name, tags);
    TagsOfMethodText(name, tags);
    PaddingIsNoLine(tags);
    PaddingKeepsShapes(tags);
    PaddingKeepsLines(tags);
  }

  /** The report of one class with given methods. */
  lemma {:induction false} ReportWith(methods: seq<Filed>) returns (report: seq<Segment>)
    requires forall i | 0 <= i < |methods| :: OfClass(methods[i])
    ensures |report| == 1 && ReportOk(report) && FiledIn(report[0]) == methods
  {
    var items := seq(|methods|, i requires 0 <= i < |methods| => Method(methods[i].xml));
    report := [ClassOf(items)];
    FilingsOfMethods("c", items);
    forall i | 0 <= i < |methods| ensures Filings("c", items)[i] == methods[i] {
      assert methods[i] == Filed(methods[i].key, methods[i].xml);
    }
    assert Filings("c", items) == methods;
    assert ItemsOk(items);
  }

  lemma OneClassReport(report: seq<Segment>)
    requires |report| == 1
    ensures AllReadable(report) <==> ReadableAll(FiledIn(report[0]))
    ensures AllFileable(report) <==> Fileable(FiledIn(report[0]))
  {
    FirstSplits(report);
    assert report[1..] == [];
  }

  lemma LinesOfTwo(f: Filed, g: Filed)
    requires Readable(Tags(f.xml)) && Readable(Tags(g.xml))
    requires DistinctNumbers(Tags(f.xml)) && DistinctNumbers(Tags(g.xml))
    ensures ReadableAll([f, g]) && DistinctAll([f, g])
  {
  }

  lemma LinesOfThree(f: Filed, g: Filed, h: Filed)
    requires Readable(Tags(f.xml)) && Readable(Tags(g.xml)) && Readable(Tags(h.xml))
    requires AllSeparable(Tags(f.xml)) && AllSeparable(Tags(g.xml)) && AllSeparable(Tags(h.xml))
    ensures ReadableAll([f, g] + [h]) && SeparableAll([f, g] + [h])
  {
  }

  lemma OfThree<T>(p: T -> bool, a: T, b: T, c: T)
    requires p(a) && p(b) && p(c)
    ensures var s := [a, b] + [c]; forall i | 0 <= i < |s| :: p(s[i])
  {
  }

  // ----- a conflict raised for two methods with one structure key -----

  lemma {:induction false} IdsOfOne(f: Filed)
    ensures Ids([f]) == [f.Id()]
  {
    assert [f] == [] + [f];
    IdsOneMore([], f);
  }

  lemma {:induction false} SurvivorOfOne(hash: Suffix, f: Filed)
    ensures Survivor(hash, [f], f.Id()) == f.xml
  {
    assert [f] == [] + [f];
    SurvivorOfLast(hash, [], f);
  }

  lemma {:induction false} FirstIsFiled(hash: Suffix, f: Filed)
    requires Readable(Tags(f.xml))
    ensures LedgerOf(hash).ops.file([], f).Ok?
  {
    LedgerFiles(hash, [], f);
  }

  lemma {:induction false} SecondIsRefused(hash: Suffix, f: Filed, g: Filed)
    requires f.Id() == g.Id() && Readable(Tags(g.xml)) && Conflict(f.xml, g.xml).Some?
    ensures LedgerOf(hash).ops.file([f], g) == Err(Conflict(f.xml, g.xml).value)
  {
    LedgerFiles(hash, [f], g);
    SurvivorOfOne(hash, f);
    IdsOfOne(f);
  }

  lemma {:induction false} RefusedAtSecond(file: (seq<Filed>, Filed) -> Result<Filing<seq<Filed>>, Error>,
      f: Filed, g: Filed)
    requires file([], f).Ok? && file([f], g).Err?
    ensures Refused(file, [], [f, g]) == Some(file([f], g).error)
  {
    assert [f, g] == [f] + [g] && [g] == [g] + [] && [] + [f] == [f];
    FirstRefused(file, [], f, [g]);
    FirstRefused(file, [f], g, []);
  }

  /** Of two readable methods with one identity and different lines the second ends the pass. */
  lemma {:induction false} PairReport(hash: Suffix, f: Filed, g: Filed, report: seq<Segment>)
    requires ReportOk(report) && |report| == 1 && FiledIn(report[0]) == [f, g]
    requires f.Id() == g.Id() && Readable(Tags(f.xml)) && Readable(Tags(g.xml)) && Conflict(f.xml, g.xml).Some?
    ensures Run(hash, Render(report)) == Err(Conflict(f.xml, g.xml).value)
  {
    FirstIsFiled(hash, f);
    SecondIsRefused(hash, f, g);
    RefusedAtSecond(LedgerOf(hash).ops.file, f, g);
    LedgerFilesWell(hash);
    RunOfWhole(LedgerOf(hash), report);
  }

  lemma {:induction false} ConflictingPair() returns (f: Filed, g: Filed)
    ensures OfClass(f) && OfClass(g) && f.Id() == g.Id()
    ensures Readable(Tags(f.xml)) && Readable(Tags(g.xml))
    ensures DistinctNumbers(Tags(f.xml)) && DistinctNumbers(Tags(g.xml))
    ensures Numbers(Tags(f.xml)) != Numbers(Tags(g.xml))
  {
    var one, two := StructureCollides();
    f := MethodWith("m", one);
    g := MethodWith("m", two);
  }

  lemma {:induction false} DifferentNumbersConflict(f: Filed, g: Filed)
    requires Readable(Tags(f.xml)) && Readable(Tags(g.xml)) && Numbers(Tags(f.xml)) != Numbers(Tags(g.xml))
    ensures Conflict(f.xml, g.xml) == Some(ConflictingLines)
  {
    if Mergeable(f.xml, g.xml) {
      MergeableNumbers(f.xml, g.xml);
    }
  }

  /** A well-formed report of readable methods with distinct line numbers that the pass ends on in a conflict. */
  lemma {:induction false} PassCanConflict(hash: Suffix) returns (report: seq<Segment>)
    ensures |report| == 1 && ReportOk(report) && AllReadable(report) && DistinctAll(FiledIn(report[0]))
    ensures Run(hash, Render(report)) == Err(ConflictingLines)
  {
    var f, g := ConflictingPair();
    report := ReportWith([f, g]);
    LinesOfTwo(f, g);
    OneClassReport(report);
    DifferentNumbersConflict(f, g);
    PairReport(hash, f, g, report);
  }

  // ----- a second pass that is not quiet -----

  /** Two single lines with different structure keys. */
  lemma {:induction false} TwoStructures() returns (a: seq<CoverTag>, b: seq<CoverTag>)
    ensures Readable(a) && Readable(b) && AllSeparable(a) && AllSeparable(b) && Structure(a) != Structure(b)
  {
    var x, y := Entry("1", "false", 0, None), Entry("2", "false", 0, None);
    a, b := [Covers(x)], [Covers(y)];
    ShapesOfOne(x);
    ShapesOfOne(y);
    if Structure(a) == Structure(b) {
      StructureInjective(a, b);
    }
  }

  /** Two methods of one key and a third that has the name the second one will be given. */
  lemma {:induction false} TakenNameInClass(hash: Suffix, f: Filed, g: Filed, h: Filed)
    requires f.key == g.key && f.Id() != g.Id()
    requires h.key == g.key.(name := RenamedTo(hash, g.key.name, g.Id().structure))
    ensures !NamesApart(hash, [f, g] + [h])
  {
    var seen := [f, g];
    IdsOfOne(f);
    assert seen == [f] + [g] && seen[..1] == [f] && f in [f];
    IdsOneMore([f], g);
    assert Collides(seen, g.Id());
    assert |h.key.name| > |g.key.name|;
    TakenNameIsUnstable(hash, seen, g.Id(), h);
  }

  lemma {:induction false} UnstableTriple(hash: Suffix) returns (methods: seq<Filed>)
    ensures forall i | 0 <= i < |methods| :: OfClass(methods[i])
    ensures ReadableAll(methods) && SeparableAll(methods) && !NamesApart(hash, methods)
  {
    var a, b := TwoStructures();
    var f := MethodWith("m", a);
    var g := MethodWith("m", b);
    var h := MethodWith(RenamedTo(hash, "m", Structure(b)), a);
    methods := [f, g] + [h];
    LinesOfThree(f, g, h);
    OfThree((x: Filed) => OfClass(x), f, g, h);
    TakenNameInClass(hash, f, g, h);
  }

  lemma {:induction false} UnstableIsNotQuiet(hash: Suffix, report: seq<Segment>)
    requires forall s, s' :: |hash(s)| == |hash(s')|
    requires ReportOk(report) && AllReadable(report) && |report| == 1 && !NamesApart(hash, FiledIn(report[0]))
    ensures forall out, total :: Run(hash, Render(NormalReport(hash, report))) != Ok(Normalized(out, total, 0, 0))
  {
    SecondPassIsQuietIffStable(hash, report);
    assert !Stable(hash, report[0]);
  }

  lemma {:induction false} FirstPassNormalizes(hash: Suffix, report: seq<Segment>)
    requires ReportOk(report) && AllFileable(report)
    ensures Run(hash, Render(report)).Ok? && Run(hash, Render(report)).value.out == Render(NormalReport(hash, report))
  {
    NormalizingAReport(hash, report);
  }

  lemma {:induction false} UnstableReport(hash: Suffix) returns (report: seq<Segment>)
    ensures |report| == 1 && ReportOk(report) && AllFileable(report) && AllReadable(report)
    ensures !NamesApart(hash, FiledIn(report[0]))
  {
    var methods := UnstableTriple(hash);
    report := ReportWith(methods);
    SeparableIsConsistent(methods);
    OneClassReport(report);
  }

  /** For every suffix function a report that a first pass normalizes and a second pass does not leave alone. */
  lemma {:induction false} SecondPassCanChange(hash: Suffix) returns (report: seq<Segment>)
    requires forall s, s' :: |hash(s)| == |hash(s')|
    ensures ReportOk(report) && AllFileable(report)
    ensures Run(hash, Render(report)).Ok? && Run(hash, Render(report)).value.out == Render(NormalReport(hash, report))
    ensures forall out, total :: Run(hash, Render(NormalReport(hash, report))) != Ok(Normalized(out, total, 0, 0))
  {
    report := UnstableReport(hash);
    FirstPassNormalizes(hash, report);
    UnstableIsNotQuiet(hash, report);
  }
}
