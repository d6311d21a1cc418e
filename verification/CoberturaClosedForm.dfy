/**
 What merging amounts to when the lines of a method have distinct numbers: a pointwise maximum.
 The text substitutions of `merge_method_xml` hit exactly the lines they are meant for, and a
 chain of merges depends only on the collection of profiles merged.
 */
module CoberturaClosedForm {

  import opened Outcomes
  import opened CoberturaLines
  import opened CoberturaMerge

  function Retag(xml: Xml, tags: seq<CoverTag>): (r: Xml)
    requires |tags| == |xml|
    ensures |r| == |xml|
  {
    seq(|xml|, i requires 0 <= i < |xml| => xml[i].(tag := tags[i]))
  }

  type Profile = map<string, Entry>

  function HitsAt(p: Profile, number: string): nat {
    if number in p then p[number].hits else 0
  }

  function CoveredAt(p: Profile, number: string): nat {
    if number in p then p[number].Covered() else 0
  }

  /** Largest hit count of a line over a collection of profiles. */
  function MaxHits(group: seq<Profile>, number: string): (m: nat)
    ensures forall i | 0 <= i < |group| :: HitsAt(group[i], number) <= m
    ensures m == 0 || exists i :: 0 <= i < |group| && HitsAt(group[i], number) == m
  {
    if group == [] then 0
    else
      var init, last := group[..|group| - 1], group[|group| - 1];
      var m := Max(MaxHits(init, number), HitsAt(last, number));
      assert forall i | 0 <= i < |init| :: init[i] == group[i];
      m
  }

  /** Largest number of covered conditions of a line over a collection of profiles. */
  function MaxCovered(group: seq<Profile>, number: string): (m: nat)
    ensures forall i | 0 <= i < |group| :: CoveredAt(group[i], number) <= m
    ensures m == 0 || exists i :: 0 <= i < |group| && CoveredAt(group[i], number) == m
  {
    if group == [] then 0
    else
      var init, last := group[..|group| - 1], group[|group| - 1];
      var m := Max(MaxCovered(init, number), CoveredAt(last, number));
      assert forall i | 0 <= i < |init| :: init[i] == group[i];
      m
  }

  /** Every line takes the maxima of the collection. */
  function Spread(tags: seq<CoverTag>, group: seq<Profile>): (r: seq<CoverTag>)
    ensures |r| == |tags|
  {
    seq(|tags|, i requires 0 <= i < |tags| =>
      if tags[i].Covers? then
        var e := tags[i].entry;
        Covers(Recounted(e, MaxHits(group, e.number), MaxCovered(group, e.number)))
      else tags[i])
  }

  lemma {:induction false} SpreadKeepsShape(tags: seq<CoverTag>, group: seq<Profile>)
    ensures SameShape(tags, Spread(tags, group))
    ensures DistinctNumbers(tags) ==> DistinctNumbers(Spread(tags, group))
  {
  }

  lemma {:induction false} MaximaOfOneMore(group: seq<Profile>, last: Profile, number: string)
    ensures MaxHits(group + [last], number) == Max(MaxHits(group, number), HitsAt(last, number))
    ensures MaxCovered(group + [last], number) == Max(MaxCovered(group, number), CoveredAt(last, number))
  {
    assert (group + [last])[..|group|] == group;
  }

  lemma {:induction false} MaximaOfTwo(a: Profile, b: Profile, number: string)
    ensures MaxHits([a], number) == HitsAt(a, number)
    ensures MaxCovered([a], number) == CoveredAt(a, number)
    ensures MaxHits([a, b], number) == Max(HitsAt(a, number), HitsAt(b, number))
    ensures MaxCovered([a, b], number) == Max(CoveredAt(a, number), CoveredAt(b, number))
  {
    assert [a, b] == [a] + [b] && [a] == [] + [a];
    MaximaOfOneMore([a], b, number);
    MaximaOfOneMore([], a, number);
  }

  /** The maxima depend only on which profiles are in the collection. */
  lemma {:induction false} MaximaOfSameMembers(g: seq<Profile>, h: seq<Profile>, number: string)
    requires forall p :: p in g <==> p in h
    ensures MaxHits(g, number) == MaxHits(h, number)
    ensures MaxCovered(g, number) == MaxCovered(h, number)
  {
    assert forall i | 0 <= i < |g| :: g[i] in h;
    assert forall j | 0 <= j < |h| :: h[j] in g;
  }

  lemma {:induction false} SpreadOfSameMembers(tags: seq<CoverTag>, g: seq<Profile>, h: seq<Profile>)
    requires forall p :: p in g <==> p in h
    ensures Spread(tags, g) == Spread(tags, h)
  {
    forall i | 0 <= i < |tags| && tags[i].Covers? ensures Spread(tags, g)[i] == Spread(tags, h)[i] {
      MaximaOfSameMembers(g, h, tags[i].entry.number);
    }
  }

  // ----- the substitutions reach the intended lines -----

  /** A line of the left method once the numbers in `done` have been substituted. */
  function ProgressLine(l: Line, done: seq<string>, right: Profile): (r: Line) {
    if l.tag.Covers? && l.tag.entry.number in done && l.tag.entry.number in right
    then Wide(l, right[l.tag.entry.number])
    else l
  }

  function Progress(left: Xml, done: seq<string>, right: Profile): (r: Xml)
    ensures |r| == |left|
  {
    seq(|left|, i requires 0 <= i < |left| => ProgressLine(left[i], done, right))
  }

  lemma {:induction false} RawOfDistinct(xml: Xml, i: nat)
    requires DistinctNumbers(Tags(xml)) && i < |xml| && xml[i].tag.Covers?
    ensures Mentions(xml, xml[i].tag.entry.number)
    ensures RawOf(xml, xml[i].tag.entry.number) == xml[i]
  {
    var raw := RawOf(xml, xml[i].tag.entry.number);
    var j :| 0 <= j < |xml| && xml[j] == raw;
    assert Tags(xml)[i] == xml[i].tag && Tags(xml)[j] == xml[j].tag;
  }

  lemma {:induction false} ProgressStep(left: Xml, done: seq<string>, number: string, right: Profile)
    requires DistinctNumbers(Tags(left))
    requires number in Numbers(Tags(left)) && number !in done && number in right
    ensures Mentions(left, number)
    ensures ReplaceFirst(Progress(left, done, right), RawOf(left, number), Wide(RawOf(left, number), right[number]))
            == Progress(left, done + [number], right)
  {
    var i0 := LookupSource(Tags(left), number);
    RawOfDistinct(left, i0);
    var xml, raw := Progress(left, done, right), left[i0];
    assert xml[i0] == raw;
    forall j | 0 <= j < |left| && left[j].tag.Covers? && left[j].tag.entry.number == number ensures j == i0 {
      assert Tags(left)[j] == left[j].tag && Tags(left)[i0] == left[i0].tag;
    }
    forall j | 0 <= j < i0 ensures xml[j] != raw {
      assert xml[j].tag.Covers? ==> xml[j].tag.entry.number == left[j].tag.entry.number;
    }
    assert FirstEqual(xml, raw) == i0;
  }

  lemma {:induction false} SubstitutionsReachTheirLines(left: Xml, done: seq<string>, todo: seq<string>, right: Profile)
    requires DistinctNumbers(Tags(left)) && Numbers(Tags(left)) == done + todo
    requires forall n | n in todo :: n in right
    ensures Substituted(Progress(left, done, right), left, todo, right) == Progress(left, done + todo, right)
    decreases |todo|
  {
    if todo == [] {
      assert done + todo == done;
    } else {
      NumbersAreDistinct(Tags(left));
      assert Numbers(Tags(left))[|done|] == todo[0];
      forall j | 0 <= j < |done| ensures done[j] != todo[0] {
        assert Numbers(Tags(left))[j] == done[j];
      }
      ProgressStep(left, done, todo[0], right);
      assert done + todo == (done + [todo[0]]) + todo[1..];
      SubstitutionsReachTheirLines(left, done + [todo[0]], todo[1..], right);
    }
  }

  lemma {:induction false} ProgressAtTheEnd(left: Xml, right: Profile, i: nat)
    requires DistinctNumbers(Tags(left)) && i < |left|
    requires forall n | n in Numbers(Tags(left)) :: n in right
    ensures ProgressLine(left[i], Numbers(Tags(left)), right)
            == left[i].(tag := Spread(Tags(left), [Lookup(Tags(left)), right])[i])
  {
    if left[i].tag.Covers? {
      var ls, n := Lookup(Tags(left)), left[i].tag.entry.number;
      LookupOfLine(Tags(left), i);
      MaximaOfTwo(ls, right, n);
    }
  }

  /** One merge is the pointwise maximum of two profiles. */
  lemma {:induction false} MergedIsPointwiseMax(left: Xml, right: Xml)
    requires Mergeable(left, right) && DistinctNumbers(Tags(left))
    ensures Merged(left, right)
            == Rated(Retag(left, Spread(Tags(left), [Lookup(Tags(left)), Lookup(Tags(right))])))
  {
    MergeableNumbers(left, right);
    var numbers, rs := Numbers(Tags(left)), Lookup(Tags(right));
    assert Progress(left, [], rs) == left;
    assert [] + numbers == numbers;
    SubstitutionsReachTheirLines(left, [], numbers, rs);
    forall i | 0 <= i < |left| {
      ProgressAtTheEnd(left, rs, i);
    }
    assert Progress(left, numbers, rs) == Retag(left, Spread(Tags(left), [Lookup(Tags(left)), rs]));
  }

  // ----- chains of merges -----

  lemma {:induction false} TagsOfRetag(xml: Xml, tags: seq<CoverTag>)
    requires |tags| == |xml|
    ensures Tags(Retag(xml, tags)) == tags
  {
  }

  lemma {:induction false} TagsOfRated(xml: Xml)
    ensures Tags(Rated(xml)) == Tags(xml)
  {
  }

  lemma {:induction false} LineRateIsFinal(xml: Xml, tags: seq<CoverTag>, r: Rate, r': Rate)
    requires |tags| == |xml|
    ensures SetLineRate(Retag(SetLineRate(xml, r), tags), r') == SetLineRate(Retag(xml, tags), r')
  {
    SameFirst(xml, SetLineRate(xml, r), HasLineRate);
    SameFirst(xml, Retag(xml, tags), HasLineRate);
    SameFirst(xml, Retag(SetLineRate(xml, r), tags), HasLineRate);
  }

  lemma {:induction false} BranchRateIsFinal(xml: Xml, tags: seq<CoverTag>, r: Rate, r': Rate)
    requires |tags| == |xml|
    ensures SetBranchRate(Retag(SetBranchRate(xml, r), tags), r') == SetBranchRate(Retag(xml, tags), r')
  {
    SameFirst(xml, SetBranchRate(xml, r), HasBranchRate);
    SameFirst(xml, Retag(xml, tags), HasBranchRate);
    SameFirst(xml, Retag(SetBranchRate(xml, r), tags), HasBranchRate);
  }

  lemma {:induction false} RatesCommute(xml: Xml, r: Rate, r': Rate)
    ensures SetBranchRate(SetLineRate(xml, r), r') == SetLineRate(SetBranchRate(xml, r'), r)
  {
    var lined, branched := SetLineRate(xml, r), SetBranchRate(xml, r');
    SameFirst(xml, lined, HasBranchRate);
    SameFirst(xml, branched, HasLineRate);
    var i, k := First(xml, HasLineRate), First(xml, HasBranchRate);
    var a, b := SetBranchRate(lined, r'), SetLineRate(branched, r);
    forall j | 0 <= j < |xml| ensures a[j] == b[j] {
      if j == i && j == k {
        assert a[j] == xml[j].(lineRate := Some(r)).(branchRate := Some(r'));
        assert b[j] == xml[j].(branchRate := Some(r')).(lineRate := Some(r));
      } else if j == i {
        assert a[j] == lined[j] && b[j] == xml[j].(lineRate := Some(r));
      } else if j == k {
        assert a[j] == xml[j].(branchRate := Some(r')) && b[j] == branched[j];
      } else {
        assert a[j] == xml[j] && b[j] == xml[j];
      }
    }
  }

  /** Rating a second time, after new counts, forgets the first rating. */
  lemma {:induction false} RatingIsFinal(xml: Xml, tags: seq<CoverTag>)
    requires |tags| == |xml|
    ensures Rated(Retag(Rated(xml), tags)) == Rated(Retag(xml, tags))
  {
    TagsOfRetag(Rated(xml), tags);
    TagsOfRetag(xml, tags);
    RatesAreFinal(xml, tags, LineRateOf(Tags(xml)), BranchRateOf(Tags(xml)), LineRateOf(tags), BranchRateOf(tags));
  }

  lemma {:induction false} RatesAreFinal(xml: Xml, tags: seq<CoverTag>, l: Rate, b: Rate, l': Rate, b': Rate)
    requires |tags| == |xml|
    ensures SetBranchRate(SetLineRate(Retag(SetBranchRate(SetLineRate(xml, l), b), tags), l'), b')
            == SetBranchRate(SetLineRate(Retag(xml, tags), l'), b')
  {
    calc {
      SetBranchRate(SetLineRate(Retag(SetBranchRate(SetLineRate(xml, l), b), tags), l'), b');
      { RatesCommute(Retag(SetBranchRate(SetLineRate(xml, l), b), tags), l', b'); }
      SetLineRate(SetBranchRate(Retag(SetBranchRate(SetLineRate(xml, l), b), tags), b'), l');
      { BranchRateIsFinal(SetLineRate(xml, l), tags, b, b'); }
      SetLineRate(SetBranchRate(Retag(SetLineRate(xml, l), tags), b'), l');
      { RatesCommute(Retag(SetLineRate(xml, l), tags), l', b'); }
      SetBranchRate(SetLineRate(Retag(SetLineRate(xml, l), tags), l'), b');
      { LineRateIsFinal(xml, tags, l, l'); }
      SetBranchRate(SetLineRate(Retag(xml, tags), l'), b');
    }
  }

  lemma {:induction false} SameFirst(a: Xml, b: Xml, p: Line -> bool)
    requires |a| == |b| && forall i | 0 <= i < |a| :: p(a[i]) == p(b[i])
    ensures First(a, p) == First(b, p)
  {
    if a != [] {
      SameFirst(a[1..], b[1..], p);
    }
  }

  /** Merging one more profile into an already merged method adds it to the collection. */
  lemma {:induction false} MergingOneMore(base: Xml, group: seq<Profile>, right: Xml)
    requires DistinctNumbers(Tags(base))
    requires Mergeable(base, right)
    ensures var left := Rated(Retag(base, Spread(Tags(base), group)));
            Mergeable(left, right) &&
            Merged(left, right) == Rated(Retag(base, Spread(Tags(base), group + [Lookup(Tags(right))])))
  {
    var tags, rs := Tags(base), Lookup(Tags(right));
    var t1 := Spread(tags, group);
    var left := Rated(Retag(base, t1));
    TagsOfRetag(base, t1);
    TagsOfRated(Retag(base, t1));
    SpreadKeepsShape(tags, group);
    SameShapeSameStructure(tags, t1);
    MergedIsPointwiseMax(left, right);
    SpreadOfSpread(tags, group, rs);
    var t2 := Spread(tags, group + [rs]);
    assert Retag(Retag(base, t1), t2) == Retag(base, t2);
    RatingIsFinal(Retag(base, t1), t2);
  }

  lemma {:induction false} SpreadOfSpread(tags: seq<CoverTag>, group: seq<Profile>, rs: Profile)
    requires DistinctNumbers(tags)
    ensures var t1 := Spread(tags, group);
            Spread(t1, [Lookup(t1), rs]) == Spread(tags, group + [rs])
  {
    var t1 := Spread(tags, group);
    forall i | 0 <= i < |tags| ensures Spread(t1, [Lookup(t1), rs])[i] == Spread(tags, group + [rs])[i] {
      if tags[i].Covers? {
        SpreadTwice(tags, group, rs, i);
      }
    }
  }

  lemma {:induction false} SpreadTwice(tags: seq<CoverTag>, group: seq<Profile>, rs: Profile, i: nat)
    requires DistinctNumbers(tags) && i < |tags| && tags[i].Covers?
    ensures var t1 := Spread(tags, group);
            Spread(t1, [Lookup(t1), rs])[i] == Spread(tags, group + [rs])[i]
  {
    var t1 := Spread(tags, group);
    var ls := Lookup(t1);
    SpreadKeepsShape(tags, group);
    LookupOfLine(t1, i);
    var n := tags[i].entry.number;
    MaximaOfTwo(ls, rs, n);
    MaximaOfOneMore(group, rs, n);
  }
}
