/**
 When a second pass over a normalized report changes nothing: exactly when, in every class, the
 names given to structural collisions stay apart from each other and from the names in use.
 */
module CoberturaIdempotence {

  import opened Outcomes
  import opened Text
  import opened CoberturaLines
  import opened CoberturaMerge
  import opened CoberturaClosedForm
  import opened CoberturaGroups
  import opened CoberturaNormalizer
  import opened CoberturaReport
  import opened CoberturaTheorems

  // ----- what merging and renaming leave alone -----

  /** The part of a line that merging does not touch. */
  function Frame(l: Line): (r: Line) { l.(tag := NoTag, lineRate := None, branchRate := None) }

  ghost predicate SameFrame(a: Xml, b: Xml) {
    |a| == |b| && forall i | 0 <= i < |a| :: Frame(a[i]) == Frame(b[i])
  }

  lemma {:induction false} SubstitutedKeepsFrame(xml: Xml, left: Xml, todo: seq<string>, right: Profile)
    ensures SameFrame(xml, Substituted(xml, left, todo, right))
    decreases |todo|
  {
    if todo != [] && Mentions(left, todo[0]) && todo[0] in right {
      var raw := RawOf(left, todo[0]);
      var once := ReplaceFirst(xml, raw, Wide(raw, right[todo[0]]));
      assert SameFrame(xml, once);
      SubstitutedKeepsFrame(once, left, todo[1..], right);
    }
  }

  lemma {:induction false} RatesKeepFrame(xml: Xml, l: Rate, b: Rate)
    ensures SameFrame(xml, SetBranchRate(SetLineRate(xml, l), b))
  {
    var once := SetLineRate(xml, l);
    assert SameFrame(xml, once);
    forall i | 0 <= i < |xml| ensures Frame(once[i]) == Frame(SetBranchRate(once, b)[i]) {
    }
  }

  lemma {:induction false} MergedKeepsFrame(left: Xml, right: Xml)
    ensures SameFrame(left, Merged(left, right))
  {
    var text := Substituted(left, left, Numbers(Tags(left)), Lookup(Tags(right)));
    SubstitutedKeepsFrame(left, left, Numbers(Tags(left)), Lookup(Tags(right)));
    RatesKeepFrame(text, LineRateOf(Tags(text)), BranchRateOf(Tags(text)));
    assert SameFrame(text, Merged(left, right));
  }

  lemma {:induction false} FramedStaysFramed(a: Xml, b: Xml, cls: string)
    requires SameFrame(a, b) && Framed(a)
    ensures Framed(b) && HeaderKey(cls, b) == HeaderKey(cls, a)
  {
    assert Frame(a[0]) == Frame(b[0]) && Frame(a[|a| - 1]) == Frame(b[|b| - 1]);
    forall i | 0 < i < |b| - 1 ensures !b[i].methodClose {
      assert Frame(a[i]) == Frame(b[i]);
    }
  }

  lemma {:induction false} MergedStaysFramed(left: Xml, right: Xml, cls: string)
    requires Framed(left)
    ensures Framed(Merged(left, right)) && HeaderKey(cls, Merged(left, right)) == HeaderKey(cls, left)
  {
    MergedKeepsFrame(left, right);
    FramedStaysFramed(left, Merged(left, right), cls);
  }

  lemma {:induction false} RenamedStaysFramed(hash: Suffix, xml: Xml, structure: string, cls: string)
    requires Framed(xml)
    ensures var d, key := Disambiguated(hash, xml, structure), HeaderKey(cls, xml);
            Framed(d) && HeaderKey(cls, d) == key.(name := RenamedTo(hash, key.name, structure))
  {
    assert First(xml, HasNameFirst) == 0;
  }

  // ----- the keys of the survivors -----

  ghost predicate FramedAll(seen: seq<Filed>) {
    forall i | 0 <= i < |seen| :: Framed(seen[i].xml)
  }

  ghost predicate KeysFromHeaders(cls: string, seen: seq<Filed>) {
    forall i | 0 <= i < |seen| :: seen[i].key == HeaderKey(cls, seen[i].xml)
  }

  /** The key under which an identity is written. */
  ghost function FinalKey(hash: Suffix, seen: seq<Filed>, id: Identity): (k: Key)
    requires id in Ids(seen)
  {
    if Collides(seen, id) then id.key.(name := RenamedTo(hash, id.key.name, id.structure)) else id.key
  }

  lemma {:induction false} FinalKeyStays(hash: Suffix, init: seq<Filed>, last: Filed, id: Identity)
    requires id in Ids(init)
    ensures id in Ids(init + [last]) && FinalKey(hash, init + [last], id) == FinalKey(hash, init, id)
  {
    assert (init + [last])[..|init|] == init;
  }

  lemma {:induction false} FirstIsFramed(hash: Suffix, cls: string, init: seq<Filed>, last: Filed)
    requires Framed(last.xml) && last.key == HeaderKey(cls, last.xml) && last.Id() !in Ids(init)
    ensures Framed(Stored(hash, init, last))
    ensures last.Id() in Ids(init + [last])
    ensures HeaderKey(cls, Stored(hash, init, last)) == FinalKey(hash, init + [last], last.Id())
  {
    assert (init + [last])[..|init|] == init;
    RenamedStaysFramed(hash, last.xml, last.Id().structure, cls);
  }

  lemma {:induction false} SurvivorIsFramed(hash: Suffix, cls: string, seen: seq<Filed>, id: Identity)
    requires FramedAll(seen) && KeysFromHeaders(cls, seen) && id in Ids(seen)
    ensures Framed(Survivor(hash, seen, id))
    ensures HeaderKey(cls, Survivor(hash, seen, id)) == FinalKey(hash, seen, id)
    decreases |seen|
  {
    var init, last := seen[..|seen| - 1], seen[|seen| - 1];
    assert seen == init + [last];
    if id in Ids(init) {
      SurvivorIsFramed(hash, cls, init, id);
      FinalKeyStays(hash, init, last, id);
      if last.Id() == id {
        SurvivorOfLast(hash, init, last);
        MergedStaysFramed(Survivor(hash, init, id), last.xml, cls);
      } else {
        SurvivorOfOther(hash, init, last, id);
      }
    } else {
      SurvivorOfLast(hash, init, last);
      FirstIsFramed(hash, cls, init, last);
    }
  }

  // ----- a class that needs no merge and no renaming -----

  ghost predicate DistinctKeys(seen: seq<Filed>) {
    forall i, j | 0 <= i < j < |seen| :: seen[i].key != seen[j].key
  }

  /** Filing counts nothing exactly when all keys differ. */
  lemma {:induction false} QuietIffDistinctKeys(seen: seq<Filed>)
    ensures MergedCount(seen) == 0 && RenamedCount(seen) == 0 <==> DistinctKeys(seen)
  {
    if seen != [] {
      var n := |seen| - 1;
      var init, last := seen[..n], seen[n];
      assert seen == init + [last];
      QuietIffDistinctKeys(init);
      if KeySeen(init, last.key) {
        var i :| 0 <= i < |init| && init[i].key == last.key;
        assert seen[i].key == seen[n].key;
      } else {
        assert last.Id() !in Ids(init) by {
          if last.Id() in Ids(init) {
            var g := IdHasMethod(init, last.Id());
          }
        }
        forall i | 0 <= i < n ensures seen[i].key != last.key {
          assert init[i] in init;
        }
      }
    }
  }

  lemma {:induction false} DistinctKeysSurvive(hash: Suffix, seen: seq<Filed>, i: nat)
    requires DistinctKeys(seen) && i < |seen|
    ensures |Ids(seen)| == |seen| && Ids(seen)[i] == seen[i].Id()
    ensures Survivor(hash, seen, seen[i].Id()) == seen[i].xml
    decreases |seen|
  {
    var n := |seen| - 1;
    var init, last := seen[..n], seen[n];
    assert seen == init + [last];
    IdsOfDistinctKeys(init);
    IdsOfDistinctKeys(seen);
    if i < n {
      DistinctKeysSurvive(hash, init, i);
      SurvivorOfOther(hash, init, last, seen[i].Id());
    } else {
      assert last.Id() !in Ids(init);
      assert !KeySeen(init, last.key);
      SurvivorOfLast(hash, init, last);
    }
  }

  lemma {:induction false} IdsOfDistinctKeys(seen: seq<Filed>)
    requires DistinctKeys(seen)
    ensures |Ids(seen)| == |seen| && forall i | 0 <= i < |seen| :: Ids(seen)[i] == seen[i].Id()
  {
    if seen != [] {
      var n := |seen| - 1;
      var init, id := seen[..n], seen[n].Id();
      IdsOfDistinctKeys(init);
      assert id !in Ids(init) by {
        forall i | 0 <= i < n ensures Ids(init)[i] != id {
          assert Ids(init)[i] == init[i].Id() && init[i].key == seen[i].key;
        }
      }
      assert Ids(seen) == Ids(init) + [id];
    }
  }

  // ----- when the written keys are distinct -----

  /** No two renamed methods of one key get the same suffix. */
  ghost predicate SuffixesApart(hash: Suffix, seen: seq<Filed>) {
    forall a, b | a in Ids(seen) && b in Ids(seen) && a != b && a.key == b.key
                  && Collides(seen, a) && Collides(seen, b) ::
      hash(a.structure) != hash(b.structure)
  }

  /** No method keeps a name that another one is renamed to. */
  ghost predicate NamesApart(hash: Suffix, seen: seq<Filed>) {
    forall a, b | a in Ids(seen) && b in Ids(seen) && !Collides(seen, a) && Collides(seen, b) ::
      a.key != b.key.(name := RenamedTo(hash, b.key.name, b.structure))
  }

  /** Only the first identity of a key is not a collision. */
  lemma {:induction false} OneFirstPerKey(seen: seq<Filed>, a: Identity, b: Identity)
    requires a in Ids(seen) && b in Ids(seen) && a.key == b.key
    requires !Collides(seen, a) && !Collides(seen, b)
    ensures a == b
    decreases |seen|
  {
    var init, last := seen[..|seen| - 1], seen[|seen| - 1];
    if a in Ids(init) && b in Ids(init) {
      OneFirstPerKey(init, a, b);
    } else if a in Ids(init) {
      var g := IdHasMethod(init, a);
    } else if b in Ids(init) {
      var g := IdHasMethod(init, b);
    }
  }

  lemma {:induction false} RenamedApart(hash: Suffix, n: string, s: string, n': string, s': string)
    requires |hash(s)| == |hash(s')|
    ensures RenamedTo(hash, n, s) == RenamedTo(hash, n', s') <==> n == n' && hash(s) == hash(s')
  {
    var mark := "@coverage-";
    CutAtLength(n, mark + hash(s), n', mark + hash(s'));
    if mark + hash(s) == mark + hash(s') {
      assert hash(s) == (mark + hash(s))[|mark|..] == (mark + hash(s'))[|mark|..] == hash(s');
    }
  }

  ghost predicate FinalKeysApart(hash: Suffix, seen: seq<Filed>) {
    forall a, b | a in Ids(seen) && b in Ids(seen) && a != b :: FinalKey(hash, seen, a) != FinalKey(hash, seen, b)
  }

  /** When two identities are written under one key. */
  lemma {:induction false} PairOfFinalKeys(hash: Suffix, seen: seq<Filed>, a: Identity, b: Identity)
    requires |hash(a.structure)| == |hash(b.structure)|
    requires a in Ids(seen) && b in Ids(seen) && a != b
    ensures FinalKey(hash, seen, a) == FinalKey(hash, seen, b) <==>
            if Collides(seen, a) && Collides(seen, b) then a.key == b.key && hash(a.structure) == hash(b.structure)
            else if Collides(seen, b) then a.key == b.key.(name := RenamedTo(hash, b.key.name, b.structure))
            else Collides(seen, a) && b.key == a.key.(name := RenamedTo(hash, a.key.name, a.structure))
  {
    RenamedApart(hash, a.key.name, a.structure, b.key.name, b.structure);
    if !Collides(seen, a) && !Collides(seen, b) && a.key == b.key {
      OneFirstPerKey(seen, a, b);
    }
  }

  /** With suffixes of one length, the two conditions say exactly that the written keys differ. */
  lemma {:induction false} ApartIffKeysDiffer(hash: Suffix, seen: seq<Filed>)
    requires forall s, s' :: |hash(s)| == |hash(s')|
    ensures FinalKeysApart(hash, seen) <==> SuffixesApart(hash, seen) && NamesApart(hash, seen)
  {
    if FinalKeysApart(hash, seen) {
      forall a, b | a in Ids(seen) && b in Ids(seen) && a != b
        ensures FinalKey(hash, seen, a) != FinalKey(hash, seen, b)
      {
      }
      forall a, b | a in Ids(seen) && b in Ids(seen) && a != b && Collides(seen, b)
        ensures Collides(seen, a) && a.key == b.key ==> hash(a.structure) != hash(b.structure)
        ensures !Collides(seen, a) ==> a.key != b.key.(name := RenamedTo(hash, b.key.name, b.structure))
      {
        PairOfFinalKeys(hash, seen, a, b);
      }
    } else {
      var a, b :| a in Ids(seen) && b in Ids(seen) && a != b && FinalKey(hash, seen, a) == FinalKey(hash, seen, b);
      PairOfFinalKeys(hash, seen, a, b);
    }
  }

  // ----- the second pass over a class -----

  lemma {:induction false} FilingsConcat(cls: string, a: seq<Item>, b: seq<Item>)
    ensures Filings(cls, a + b) == Filings(cls, a) + Filings(cls, b)
    ensures Gaps(a + b) == Gaps(a) + Gaps(b)
    decreases |a|
  {
    if a == [] {
      assert a + b == b;
    } else {
      assert (a + b)[0] == a[0] && (a + b)[1..] == a[1..] + b;
      FilingsConcat(cls, a[1..], b);
      if a[0].Gap? {
        GapFirst(cls, a);
        GapFirst(cls, a + b);
        Associative([a[0].line], Gaps(a[1..]), Gaps(b));
      } else {
        MethodFirst(cls, a);
        MethodFirst(cls, a + b);
        Associative([Filed(HeaderKey(cls, a[0].lines), a[0].lines)], Filings(cls, a[1..]), Filings(cls, b));
      }
    }
  }

  lemma {:induction false} FilingsOfGaps(cls: string, lines: Xml)
    ensures Filings(cls, GapItems(lines)) == [] && Gaps(GapItems(lines)) == lines
  {
    if lines != [] {
      assert GapItems(lines)[1..] == GapItems(lines[1..]);
      FilingsOfGaps(cls, lines[1..]);
      GapFirst(cls, GapItems(lines));
      assert lines == [lines[0]] + lines[1..];
    }
  }

  ghost predicate AllMethods(items: seq<Item>) {
    forall i | 0 <= i < |items| :: items[i].Method?
  }

  lemma {:induction false} FilingsOfMethods(cls: string, items: seq<Item>)
    requires AllMethods(items)
    ensures |Filings(cls, items)| == |items| && Gaps(items) == []
    ensures forall i | 0 <= i < |items| ::
              Filings(cls, items)[i] == Filed(HeaderKey(cls, items[i].lines), items[i].lines)
    decreases |items|
  {
    if items != [] {
      FilingsOfMethods(cls, items[1..]);
      MethodFirst(cls, items);
      forall i | 0 < i < |items|
        ensures Filings(cls, items)[i] == Filed(HeaderKey(cls, items[i].lines), items[i].lines)
      {
        assert Filings(cls, items)[i] == Filings(cls, items[1..])[i - 1];
      }
    }
  }

  /** The methods of a normalized class, as the second pass files them. */
  ghost function Refiled(hash: Suffix, seen: seq<Filed>): (r: seq<Filed>) {
    var ids := Ids(seen);
    seq(|ids|, i requires 0 <= i < |ids| => Filed(FinalKey(hash, seen, ids[i]), Survivor(hash, seen, ids[i])))
  }

  lemma {:induction false} SecondFilings(hash: Suffix, cls: string, seen: seq<Filed>, gaps: Xml)
    requires FramedAll(seen) && KeysFromHeaders(cls, seen)
    ensures var items := GapItems(gaps) + SurvivorItems(hash, seen);
            Filings(cls, items) == Refiled(hash, seen) && Gaps(items) == gaps
  {
    var methods := SurvivorItems(hash, seen);
    FilingsConcat(cls, GapItems(gaps), methods);
    FilingsOfGaps(cls, gaps);
    FilingsOfMethods(cls, methods);
    forall i | 0 <= i < |methods| ensures Filings(cls, methods)[i] == Refiled(hash, seen)[i] {
      SurvivorIsFramed(hash, cls, seen, Ids(seen)[i]);
    }
    assert Filings(cls, methods) == Refiled(hash, seen);
    assert [] + Refiled(hash, seen) == Refiled(hash, seen) && gaps + [] == gaps;
  }

  lemma {:induction false} ApartGivesDistinct(hash: Suffix, seen: seq<Filed>, i: nat, j: nat)
    requires FinalKeysApart(hash, seen) && i < j < |Ids(seen)|
    ensures Refiled(hash, seen)[i].key != Refiled(hash, seen)[j].key
  {
    var ids := Ids(seen);
    IdsAreDistinct(seen);
    assert ids[i] in ids && ids[j] in ids && ids[i] != ids[j];
    assert FinalKey(hash, seen, ids[i]) != FinalKey(hash, seen, ids[j]);
  }

  lemma {:induction false} DistinctGivesApart(hash: Suffix, seen: seq<Filed>, a: Identity, b: Identity)
    requires DistinctKeys(Refiled(hash, seen)) && a in Ids(seen) && b in Ids(seen) && a != b
    ensures FinalKey(hash, seen, a) != FinalKey(hash, seen, b)
  {
    var ids := Ids(seen);
    var i :| 0 <= i < |ids| && ids[i] == a;
    var j :| 0 <= j < |ids| && ids[j] == b;
    var again := Refiled(hash, seen);
    assert i < j ==> again[i].key != again[j].key;
    assert j < i ==> again[j].key != again[i].key;
    assert again[i].key == FinalKey(hash, seen, a) && again[j].key == FinalKey(hash, seen, b);
  }

  lemma {:induction false} RefiledKeysDistinctIffApart(hash: Suffix, seen: seq<Filed>)
    ensures DistinctKeys(Refiled(hash, seen)) <==> FinalKeysApart(hash, seen)
  {
    if FinalKeysApart(hash, seen) {
      forall i, j | 0 <= i < j < |Ids(seen)| ensures Refiled(hash, seen)[i].key != Refiled(hash, seen)[j].key {
        ApartGivesDistinct(hash, seen, i, j);
      }
    }
    if DistinctKeys(Refiled(hash, seen)) {
      forall a, b | a in Ids(seen) && b in Ids(seen) && a != b
        ensures FinalKey(hash, seen, a) != FinalKey(hash, seen, b)
      {
        DistinctGivesApart(hash, seen, a, b);
      }
    }
  }

  // ----- the second pass over a report -----

  lemma {:induction false} FilingsAreFramed(cls: string, items: seq<Item>)
    requires ItemsOk(items)
    ensures FramedAll(Filings(cls, items)) && KeysFromHeaders(cls, Filings(cls, items))
    ensures forall i | 0 <= i < |Gaps(items)| :: Quiet(Gaps(items)[i])
    decreases |items|
  {
    if items != [] {
      assert ItemOk(items[0]);
      FilingsAreFramed(cls, items[1..]);
      if items[0].Gap? {
        GapFirst(cls, items);
      } else {
        MethodFirst(cls, items);
      }
    }
  }

  lemma {:induction false} SurvivorItemsAreOk(hash: Suffix, cls: string, seen: seq<Filed>)
    requires FramedAll(seen) && KeysFromHeaders(cls, seen)
    ensures ItemsOk(SurvivorItems(hash, seen))
  {
    forall i | 0 <= i < |Ids(seen)| ensures ItemOk(SurvivorItems(hash, seen)[i]) {
      SurvivorIsFramed(hash, cls, seen, Ids(seen)[i]);
    }
  }

  lemma {:induction false} NormalSegmentIsOk(hash: Suffix, s: Segment)
    requires SegmentOk(s)
    ensures SegmentOk(NormalSegment(hash, s))
    ensures FiledIn(NormalSegment(hash, s)) == Refiled(hash, FiledIn(s))
    ensures s.Class? ==> Gaps(NormalSegment(hash, s).items) == Gaps(s.items)
  {
    if s.Class? {
      var cls, fs := ClassName(s.head), FiledIn(s);
      FilingsAreFramed(cls, s.items);
      SecondFilings(hash, cls, fs, Gaps(s.items));
      SurvivorItemsAreOk(hash, cls, fs);
      assert ItemsOk(GapItems(Gaps(s.items)));
      var items := NormalSegment(hash, s).items;
      assert items == GapItems(Gaps(s.items)) + SurvivorItems(hash, fs);
      assert ItemsOk(items);
    } else {
      assert Ids([]) == [];
    }
  }

  /** A class is stable when its renamed methods stay apart from each other and from the rest. */
  ghost predicate Stable(hash: Suffix, s: Segment) {
    SuffixesApart(hash, FiledIn(s)) && NamesApart(hash, FiledIn(s))
  }

  lemma {:induction false} StableIffQuiet(hash: Suffix, s: Segment)
    requires SegmentOk(s) && forall s, s' :: |hash(s)| == |hash(s')|
    ensures var fs := FiledIn(NormalSegment(hash, s));
            MergedCount(fs) == 0 && RenamedCount(fs) == 0 <==> Stable(hash, s)
  {
    NormalSegmentIsOk(hash, s);
    QuietIffDistinctKeys(Refiled(hash, FiledIn(s)));
    RefiledKeysDistinctIffApart(hash, FiledIn(s));
    ApartIffKeysDiffer(hash, FiledIn(s));
  }

  lemma {:induction false} DistinctSurvivorsStay(hash: Suffix, seen: seq<Filed>)
    requires DistinctKeys(Refiled(hash, seen))
    ensures SurvivorItems(hash, Refiled(hash, seen)) == SurvivorItems(hash, seen)
  {
    var again := Refiled(hash, seen);
    IdsOfDistinctKeys(again);
    forall i | 0 <= i < |again| ensures SurvivorItems(hash, again)[i] == SurvivorItems(hash, seen)[i] {
      DistinctKeysSurvive(hash, again, i);
    }
  }

  lemma {:induction false} StableClassIsFixed(hash: Suffix, s: Segment)
    requires SegmentOk(s) && forall s, s' :: |hash(s)| == |hash(s')|
    requires Stable(hash, s)
    ensures NormalSegment(hash, NormalSegment(hash, s)) == NormalSegment(hash, s)
  {
    if s.Class? {
      NormalSegmentIsOk(hash, s);
      RefiledKeysDistinctIffApart(hash, FiledIn(s));
      ApartIffKeysDiffer(hash, FiledIn(s));
      DistinctSurvivorsStay(hash, FiledIn(s));
    }
  }

  ghost predicate QuietClass(s: Segment) {
    MergedCount(FiledIn(s)) == 0 && RenamedCount(FiledIn(s)) == 0
  }

  ghost predicate AllQuiet(report: seq<Segment>) {
    forall i | 0 <= i < |report| :: QuietClass(report[i])
  }

  lemma {:induction false} CountsAreZeroIff(report: seq<Segment>)
    ensures MergedIn(report) == 0 && RenamedIn(report) == 0 <==> AllQuiet(report)
    decreases |report|
  {
    if report != [] {
      CountsAreZeroIff(report[1..]);
      FirstOf((s: Segment) => QuietClass(s), report);
    }
  }

  lemma {:induction false} NormalReportIsOk(hash: Suffix, report: seq<Segment>)
    requires ReportOk(report)
    ensures ReportOk(NormalReport(hash, report))
  {
    forall i | 0 <= i < |report| ensures SegmentOk(NormalReport(hash, report)[i]) {
      NormalSegmentIsOk(hash, report[i]);
    }
  }

  lemma {:induction false} ClassCountsAddUp(hash: Suffix, s: Segment)
    requires SegmentOk(s)
    ensures |FiledIn(s)| == |FiledIn(NormalSegment(hash, s))| + MergedCount(FiledIn(s))
  {
    NormalSegmentIsOk(hash, s);
    NothingIsLost(FiledIn(s));
    assert |Refiled(hash, FiledIn(s))| == |Ids(FiledIn(s))|;
  }

  lemma {:induction false} NormalTotal(hash: Suffix, report: seq<Segment>)
    requires report != []
    ensures TotalIn(NormalReport(hash, report))
         == |FiledIn(NormalSegment(hash, report[0]))| + TotalIn(NormalReport(hash, report[1..]))
  {
    var once := NormalReport(hash, report);
    assert once[0] == NormalSegment(hash, report[0]) && once[1..] == NormalReport(hash, report[1..]);
  }

  /** The methods read are the methods of the normalized report and the merged ones. */
  lemma {:induction false} CountsAddUp(hash: Suffix, report: seq<Segment>)
    requires ReportOk(report)
    ensures TotalIn(report) == TotalIn(NormalReport(hash, report)) + MergedIn(report)
    decreases |report|
  {
    if report != [] {
      ClassCountsAddUp(hash, report[0]);
      CountsAddUp(hash, report[1..]);
      NormalTotal(hash, report);
    }
  }

  lemma {:induction false} QuietIffAllStable(hash: Suffix, report: seq<Segment>)
    requires ReportOk(report) && forall s, s' :: |hash(s)| == |hash(s')|
    ensures var again := NormalReport(hash, report);
            MergedIn(again) == 0 && RenamedIn(again) == 0 <==> AllStable(hash, report)
  {
    var again := NormalReport(hash, report);
    CountsAreZeroIff(again);
    forall i | 0 <= i < |report| ensures QuietClass(again[i]) <==> Stable(hash, report[i]) {
      StableIffQuiet(hash, report[i]);
    }
  }

  /** Readable methods whose keys all differ can be filed. */
  lemma {:induction false} DistinctIsFileable(seen: seq<Filed>)
    requires ReadableAll(seen) && DistinctKeys(seen)
    ensures Fileable(seen)
  {
    forall f, g | f in seen && g in seen && f.Id() == g.Id() ensures Mergeable(f.xml, g.xml) {
      var i :| 0 <= i < |seen| && seen[i] == f;
      var j :| 0 <= j < |seen| && seen[j] == g;
      assert i == j;
    }
  }

  lemma {:induction false} StableIsFileable(hash: Suffix, s: Segment)
    requires SegmentOk(s) && ReadableAll(FiledIn(s)) && Stable(hash, s)
    requires forall s, s' :: |hash(s)| == |hash(s')|
    ensures Fileable(FiledIn(NormalSegment(hash, s)))
  {
    var fs := FiledIn(s);
    NormalSegmentIsOk(hash, s);
    RefiledKeysDistinctIffApart(hash, fs);
    ApartIffKeysDiffer(hash, fs);
    forall i | 0 <= i < |Ids(fs)| ensures Readable(Tags(Refiled(hash, fs)[i].xml)) {
      SurvivorIsReadable(hash, fs, Ids(fs)[i]);
    }
    DistinctIsFileable(Refiled(hash, fs));
  }

  ghost predicate AllStable(hash: Suffix, report: seq<Segment>) {
    forall i | 0 <= i < |report| :: Stable(hash, report[i])
  }

  /** A second pass that reports nothing leaves only stable classes. */
  lemma {:induction false} QuietPassIsStable(hash: Suffix, report: seq<Segment>, out: Xml, total: nat)
    requires ReportOk(report) && forall s, s' :: |hash(s)| == |hash(s')|
    requires Run(hash, Render(NormalReport(hash, report))) == Ok(Normalized(out, total, 0, 0))
    ensures AllStable(hash, report)
  {
    var once := NormalReport(hash, report);
    NormalReportIsOk(hash, report);
    PassSucceedsIff(hash, once);
    NormalizingAReport(hash, once);
    QuietIffAllStable(hash, report);
  }

  /** A second pass over stable classes returns its input and reports nothing. */
  lemma {:induction false} StablePassIsQuiet(hash: Suffix, report: seq<Segment>)
    requires ReportOk(report) && AllReadable(report) && AllStable(hash, report)
    requires forall s, s' :: |hash(s)| == |hash(s')|
    ensures var once := NormalReport(hash, report);
            Run(hash, Render(once)) == Ok(Normalized(Render(once), TotalIn(once), 0, 0))
  {
    var once := NormalReport(hash, report);
    NormalReportIsOk(hash, report);
    forall i | 0 <= i < |report| ensures Fileable(FiledIn(once[i])) && NormalReport(hash, once)[i] == once[i] {
      StableIsFileable(hash, report[i]);
      StableClassIsFixed(hash, report[i]);
    }
    assert NormalReport(hash, once) == once;
    NormalizingAReport(hash, once);
    QuietIffAllStable(hash, report);
  }

  /**
   A second pass returns its input and reports no merge and no renaming exactly when every class
   is stable; otherwise it merges, renames or ends in a conflict. The suffix function is any with
   results of one length.
   */
  lemma {:induction false} SecondPassIsQuietIffStable(hash: Suffix, report: seq<Segment>)
    requires ReportOk(report) && AllReadable(report) && forall s, s' :: |hash(s)| == |hash(s')|
    ensures var once := NormalReport(hash, report);
            Run(hash, Render(once)) == Ok(Normalized(Render(once), TotalIn(once), 0, 0)) <==> AllStable(hash, report)
    ensures forall out, total ::
              Run(hash, Render(NormalReport(hash, report))) == Ok(Normalized(out, total, 0, 0)) ==>
                AllStable(hash, report)
  {
    forall out, total | Run(hash, Render(NormalReport(hash, report))) == Ok(Normalized(out, total, 0, 0))
      ensures AllStable(hash, report)
    {
      QuietPassIsStable(hash, report, out, total);
    }
    if AllStable(hash, report) {
      StablePassIsQuiet(hash, report);
    }
  }

  /** Different structures of the class have different digests. */
  ghost predicate DigestsApart(hash: Suffix, seen: seq<Filed>) {
    forall f, g | f in seen && g in seen && hash(f.Id().structure) == hash(g.Id().structure) ::
      f.Id().structure == g.Id().structure
  }

  /** No method name carries the marker of a renaming. */
  ghost predicate Unmarked(seen: seq<Filed>) {
    forall f, n: string, d: string | f in seen :: f.key.name != n + ("@coverage-" + d)
  }

  lemma {:induction false} UnmarkedNamesAreStable(hash: Suffix, s: Segment)
    requires DigestsApart(hash, FiledIn(s)) && Unmarked(FiledIn(s))
    ensures Stable(hash, s)
  {
    var fs := FiledIn(s);
    forall a, b | a in Ids(fs) && b in Ids(fs) && !Collides(fs, a) && Collides(fs, b)
      ensures a.key != b.key.(name := RenamedTo(hash, b.key.name, b.structure))
    {
      var f := IdHasMethod(fs, a);
    }
    forall a, b | a in Ids(fs) && b in Ids(fs) && a != b && a.key == b.key
      ensures hash(a.structure) != hash(b.structure)
    {
      var f := IdHasMethod(fs, a);
      var g := IdHasMethod(fs, b);
    }
  }

  /** Normalizing twice is normalizing once when no name carries the marker and no digests clash. */
  lemma {:induction false} NormalizingTwiceIsOnce(hash: Suffix, report: seq<Segment>)
    requires ReportOk(report) && AllFileable(report) && forall s, s' :: |hash(s)| == |hash(s')|
    requires forall i | 0 <= i < |report| :: DigestsApart(hash, FiledIn(report[i])) && Unmarked(FiledIn(report[i]))
    ensures var once := NormalReport(hash, report);
            && Run(hash, Render(report))
               == Ok(Normalized(Render(once), TotalIn(report), MergedIn(report), RenamedIn(report)))
            && Run(hash, Render(once)) == Ok(Normalized(Render(once), TotalIn(once), 0, 0))
  {
    NormalizingAReport(hash, report);
    forall i | 0 <= i < |report| ensures Stable(hash, report[i]) {
      UnmarkedNamesAreStable(hash, report[i]);
    }
    SecondPassIsQuietIffStable(hash, report);
  }

  /** A method that arrives with a name some collision was given makes the class unstable. */
  lemma {:induction false} TakenNameIsUnstable(hash: Suffix, seen: seq<Filed>, id: Identity, taken: Filed)
    requires id in Ids(seen) && Collides(seen, id) && !KeySeen(seen, taken.key)
    requires taken.key == id.key.(name := RenamedTo(hash, id.key.name, id.structure))
    ensures !NamesApart(hash, seen + [taken])
  {
    var all := seen + [taken];
    assert all[..|all| - 1] == seen && all[|all| - 1] == taken;
    assert taken.Id() !in Ids(seen) by {
      if taken.Id() in Ids(seen) {
        var f := IdHasMethod(seen, taken.Id());
      }
    }
    assert id in Ids(all) && Collides(all, id) && taken.Id() in Ids(all) && !Collides(all, taken.Id());
  }
}
