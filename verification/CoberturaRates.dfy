/** The rates of a merged method agree with the maxima its lines carry. */
module CoberturaRates {

  import opened Outcomes
  import opened CoberturaLines
  import opened CoberturaMerge
  import opened CoberturaClosedForm
  import opened CoberturaGroups
  import opened RateText

  // ----- reference definitions -----

  /** The lines that some profile hit. */
  ghost function HitByAny(numbers: seq<string>, profiles: seq<Profile>): (r: set<string>) {
    set n | n in numbers && exists p :: p in profiles && HitsAt(p, n) > 0
  }

  /** Sum of a quantity over the lines of a method. */
  function Over(numbers: seq<string>, f: string -> nat): (n: nat) {
    if numbers == [] then 0 else f(numbers[0]) + Over(numbers[1..], f)
  }

  /** Covered conditions of a line once all profiles are merged. */
  function MergedCovered(first: Profile, profiles: seq<Profile>): (f: string -> nat) {
    n => if n in first && first[n].Total() > 0 then MaxCovered(profiles, n)
         else if n in first then first[n].Covered() else 0
  }

  function TotalOf(first: Profile): (f: string -> nat) {
    n => if n in first then first[n].Total() else 0
  }

  /** A rate as it stands in the report. */
  function Written(ties: Ties, r: Rate): (s: string) {
    match r
    case Verbatim(text) => text
    case Recomputed(covered, total) => DecimalRate(ties, covered, total)
  }

  /** A rate is written the way `decimal_rate` writes the fraction, and what is written tells the fraction. */
  ghost predicate RateIs(ties: Ties, r: Option<Rate>, covered: nat, total: nat) {
    && r.Some? && Written(ties, r.value) == DecimalRate(ties, covered, total)
    && Tells(Written(ties, r.value), covered, total)
  }

  // ----- counting -----

  ghost predicate Distinct(numbers: seq<string>) {
    forall i, j | 0 <= i < j < |numbers| :: numbers[i] != numbers[j]
  }

  lemma {:induction false} HitLinesCounts(numbers: seq<string>, entries: map<string, Entry>)
    requires Distinct(numbers)
    ensures HitLines(numbers, entries) == |set n | n in numbers && n in entries && entries[n].hits > 0|
  {
    var all := set n | n in numbers && n in entries && entries[n].hits > 0;
    if numbers != [] {
      var rest := set n | n in numbers[1..] && n in entries && entries[n].hits > 0;
      HitLinesCounts(numbers[1..], entries);
      assert numbers[0] !in numbers[1..];
      if numbers[0] in entries && entries[numbers[0]].hits > 0 {
        assert all == rest + {numbers[0]};
      } else {
        assert all == rest;
      }
    }
  }

  lemma {:induction false} SumCoveredIsOver(numbers: seq<string>, entries: map<string, Entry>, f: string -> nat)
    requires forall n | n in numbers :: n in entries && entries[n].Covered() == f(n)
    ensures SumCovered(numbers, entries) == Over(numbers, f)
  {
    if numbers != [] {
      SumCoveredIsOver(numbers[1..], entries, f);
    }
  }

  lemma {:induction false} SumTotalIsOver(numbers: seq<string>, entries: map<string, Entry>, f: string -> nat)
    requires forall n | n in numbers :: n in entries && entries[n].Total() == f(n)
    ensures SumTotal(numbers, entries) == Over(numbers, f)
  {
    if numbers != [] {
      SumTotalIsOver(numbers[1..], entries, f);
    }
  }

  lemma HitWhenMaximumPositive(profiles: seq<Profile>, n: string)
    ensures MaxHits(profiles, n) > 0 <==> exists p :: p in profiles && HitsAt(p, n) > 0
  {
    if p :| p in profiles && HitsAt(p, n) > 0 {
      var i :| 0 <= i < |profiles| && profiles[i] == p;
      assert HitsAt(profiles[i], n) <= MaxHits(profiles, n);
    }
    if MaxHits(profiles, n) > 0 {
      var i :| 0 <= i < |profiles| && HitsAt(profiles[i], n) == MaxHits(profiles, n);
      assert profiles[i] in profiles;
    }
  }

  // ----- where the rates are -----

  /** The first line rate and the first branch rate of a rated text are the recomputed ones. */
  lemma {:induction false} RatedCarriesRates(xml: Xml)
    ensures var r := Rated(xml);
            var i, j := First(r, HasLineRate), First(r, HasBranchRate);
            && (i < |r| ==> r[i].lineRate == Some(LineRateOf(Tags(xml))))
            && (j < |r| ==> r[j].branchRate == Some(BranchRateOf(Tags(xml))))
  {
    var l, b := LineRateOf(Tags(xml)), BranchRateOf(Tags(xml));
    var once := SetLineRate(xml, l);
    var r := SetBranchRate(once, b);
    SameFirst(xml, once, HasLineRate);
    SameFirst(once, r, HasLineRate);
    SameFirst(once, r, HasBranchRate);
  }

  lemma {:induction false} LineRateCounts(tags: seq<CoverTag>, profiles: seq<Profile>)
    requires DistinctNumbers(tags)
    ensures LineRateOf(Spread(tags, profiles)) == Recomputed(|HitByAny(Numbers(tags), profiles)|, |Numbers(tags)|)
  {
    var wide, numbers := Spread(tags, profiles), Numbers(tags);
    SpreadKeepsShape(tags, profiles);
    SameShapeSameLookup(tags, wide);
    NumbersAreDistinct(tags);
    HitLinesCounts(numbers, Lookup(wide));
    forall n | n in numbers
      ensures n in Lookup(wide) && (Lookup(wide)[n].hits > 0 <==> exists p :: p in profiles && HitsAt(p, n) > 0)
    {
      SpreadTakesMaxima(tags, profiles, n);
      HitWhenMaximumPositive(profiles, n);
    }
    assert HitByAny(numbers, profiles) == set n | n in numbers && n in Lookup(wide) && Lookup(wide)[n].hits > 0;
  }

  lemma {:induction false} BranchRateSums(tags: seq<CoverTag>, profiles: seq<Profile>)
    requires DistinctNumbers(tags)
    ensures var first, numbers := Lookup(tags), Numbers(tags);
            BranchRateOf(Spread(tags, profiles))
            == Recomputed(Over(numbers, MergedCovered(first, profiles)), Over(numbers, TotalOf(first)))
  {
    var wide, numbers, first := Spread(tags, profiles), Numbers(tags), Lookup(tags);
    SpreadKeepsShape(tags, profiles);
    SameShapeSameLookup(tags, wide);
    forall n | n in numbers
      ensures n in Lookup(wide) && Lookup(wide)[n].Covered() == MergedCovered(first, profiles)(n)
      ensures Lookup(wide)[n].Total() == TotalOf(first)(n)
    {
      SpreadTakesMaxima(tags, profiles, n);
    }
    SumCoveredIsOver(numbers, Lookup(wide), MergedCovered(first, profiles));
    SumTotalIsOver(numbers, Lookup(wide), TotalOf(first));
  }

  /**
   The rates of a merged method are those of the union of its profiles: lines that any of them hit
   over all lines, and covered conditions over all conditions.
   */
  lemma {:induction false} SurvivorRates(hash: Suffix, ties: Ties, seen: seq<Filed>, id: Identity)
    requires Consistent(seen) && DistinctAll(seen) && id in Ids(seen) && |Occurrences(seen, id)| > 1
    ensures var kept, all := Survivor(hash, seen, id), Occurrences(seen, id);
            var profiles, first, numbers := Profiles(all), Lookup(Tags(all[0])), Numbers(Tags(all[0]));
            var i, j := First(kept, HasLineRate), First(kept, HasBranchRate);
            && (i < |kept| ==> RateIs(ties, kept[i].lineRate, |HitByAny(numbers, profiles)|, |numbers|))
            && (j < |kept| ==> RateIs(ties, kept[j].branchRate, Over(numbers, MergedCovered(first, profiles)),
                                      Over(numbers, TotalOf(first))))
  {
    SurvivorIsClosedForm(hash, seen, id);
    TagsOfBase(hash, seen, id);
    OccurrencesAreFiled(seen, id);
    var base, all := Base(hash, seen, id), Occurrences(seen, id);
    assert Filed(id.key, all[0]) in seen;
    var wide := Spread(Tags(base), Profiles(all));
    TagsOfRetag(base, wide);
    RatedCarriesRates(Retag(base, wide));
    LineRateCounts(Tags(base), Profiles(all));
    BranchRateSums(Tags(base), Profiles(all));
    var first, numbers := Lookup(Tags(all[0])), Numbers(Tags(all[0]));
    RateStandsForFraction(ties, |HitByAny(numbers, Profiles(all))|, |numbers|);
    RateStandsForFraction(ties, Over(numbers, MergedCovered(first, Profiles(all))), Over(numbers, TotalOf(first)));
  }

  // ----- percentages -----

  lemma FloorPercent(covered: nat, total: nat)
    requires total > 0
    ensures var percent := covered * 100 / total;
            percent * total <= covered * 100 < (percent + 1) * total
  {
  }

  /** A merged branch line shows the percentage of its conditions, rounded down. */
  lemma {:induction false} SurvivorPercentages(hash: Suffix, seen: seq<Filed>, id: Identity, number: string)
    requires Consistent(seen) && DistinctAll(seen) && id in Ids(seen) && |Occurrences(seen, id)| > 1
    requires number in Numbers(Tags(Occurrences(seen, id)[0]))
    requires Lookup(Tags(Occurrences(seen, id)[0]))[number].Total() > 0
    ensures var kept := Lookup(Tags(Survivor(hash, seen, id)));
            && number in kept && kept[number].condition.Some?
            && var c := kept[number].condition.value;
            c.percent * c.total <= c.covered * 100 < (c.percent + 1) * c.total
  {
    SurvivorIsClosedForm(hash, seen, id);
    TagsOfClosedForm(hash, seen, id);
    OccurrencesAreFiled(seen, id);
    var all := Occurrences(seen, id);
    assert Filed(id.key, all[0]) in seen;
    SpreadTakesMaxima(Tags(all[0]), Profiles(all), number);
    FloorPercent(MaxCovered(Profiles(all), number), Lookup(Tags(all[0]))[number].Total());
  }
}
