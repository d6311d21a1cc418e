/** The order in which duplicates of a method arrive does not show in the normalized report. */
module CoberturaOrder {

  import opened CoberturaGroups
  import opened CoberturaNormalizer
  import opened CoberturaReport
  import opened CoberturaTheorems

  /** The segments differ at most in where a class lists its duplicates. */
  ghost predicate SameUpToOrder(s: Segment, s': Segment) {
    if s.Class? && s'.Class? then
      s.head == s'.head && Gaps(s.items) == Gaps(s'.items) && s.tail == s'.tail && SameProfiles(FiledIn(s), FiledIn(s'))
    else s == s'
  }

  ghost predicate SameReports(report: seq<Segment>, report': seq<Segment>) {
    |report| == |report'| && forall i | 0 <= i < |report| :: SameUpToOrder(report[i], report'[i])
  }

  /** No method lists a line number twice. */
  ghost predicate AllDistinct(report: seq<Segment>) {
    forall i | 0 <= i < |report| :: DistinctAll(FiledIn(report[i]))
  }

  lemma {:induction false} SameFilings(s: Segment, s': Segment)
    requires SameUpToOrder(s, s')
    ensures SameProfiles(FiledIn(s), FiledIn(s'))
  {
  }

  lemma {:induction false} SameFileable(seen: seq<Filed>, seen': seq<Filed>)
    requires SameProfiles(seen, seen') && Fileable(seen)
    ensures Fileable(seen')
  {
    SameProfilesSameMethods(seen, seen');
    SameMembers(seen, seen');
  }

  lemma {:induction false} SameCounts(seen: seq<Filed>, seen': seq<Filed>)
    requires SameProfiles(seen, seen')
    ensures |seen| == |seen'| && MergedCount(seen) == MergedCount(seen') && RenamedCount(seen) == RenamedCount(seen')
  {
    SameProfilesSameMethods(seen, seen');
    SameMembers(seen, seen');
    NothingIsLost(seen);
    NothingIsLost(seen');
    assert KeysOf(seen) == KeysOf(seen');
  }

  lemma {:induction false} SameNormalSegment(hash: Suffix, s: Segment, s': Segment)
    requires SameUpToOrder(s, s') && Fileable(FiledIn(s)) && DistinctAll(FiledIn(s))
    ensures NormalSegment(hash, s) == NormalSegment(hash, s')
  {
    if s.Class? && s'.Class? {
      var fs, fs' := FiledIn(s), FiledIn(s');
      forall i | 0 <= i < |Ids(fs)| ensures SurvivorItems(hash, fs)[i] == SurvivorItems(hash, fs')[i] {
        SurvivorIgnoresOrder(hash, fs, fs', Ids(fs)[i]);
      }
      assert SurvivorItems(hash, fs) == SurvivorItems(hash, fs');
    }
  }

  lemma {:induction false} SameSums(report: seq<Segment>, report': seq<Segment>)
    requires SameReports(report, report')
    ensures TotalIn(report) == TotalIn(report') && MergedIn(report) == MergedIn(report')
    ensures RenamedIn(report) == RenamedIn(report')
    decreases |report|
  {
    if report != [] {
      SameFilings(report[0], report'[0]);
      SameCounts(FiledIn(report[0]), FiledIn(report'[0]));
      SameSums(report[1..], report'[1..]);
    }
  }

  /**
   Reports whose classes list the same methods, with identities appearing in the same order and each
   with the same first profile, are normalized to the same text with the same counts.
   */
  lemma {:induction false} PassIgnoresOrder(hash: Suffix, report: seq<Segment>, report': seq<Segment>)
    requires ReportOk(report) && ReportOk(report') && SameReports(report, report')
    requires AllFileable(report) && AllDistinct(report)
    ensures Run(hash, Render(report)) == Run(hash, Render(report'))
  {
    forall i | 0 <= i < |report|
      ensures NormalReport(hash, report)[i] == NormalReport(hash, report')[i] && Fileable(FiledIn(report'[i]))
    {
      SameFilings(report[i], report'[i]);
      SameFileable(FiledIn(report[i]), FiledIn(report'[i]));
      SameNormalSegment(hash, report[i], report'[i]);
    }
    assert NormalReport(hash, report) == NormalReport(hash, report');
    SameSums(report, report');
    NormalizingAReport(hash, report);
    NormalizingAReport(hash, report');
  }
}
