/**
 The methods of one class, grouped by identity. The specification looks back at the whole history
 of methods filed since the class was opened; the normalizer keeps only hashes (see
 CoberturaNormalizer).
 */
module CoberturaGroups {

  import opened Outcomes
  import opened CoberturaLines
  import opened CoberturaMerge
  import opened CoberturaClosedForm

  datatype Key = Key(cls: string, name: string, signature: string)

  datatype Identity = Identity(key: Key, structure: string)

  /** A complete method element, with the key read from its opening line. */
  datatype Filed = Filed(key: Key, xml: Xml)
  {
    function Id(): Identity { Identity(key, Structure(Tags(xml))) }
  }

  /** Digest of a structure key, as appended to a renamed method. */
  type Suffix = string -> string

  predicate HasNameFirst(l: Line) { l.nameFirst && l.name.Some? }

  function RenamedTo(hash: Suffix, name: string, structure: string): (r: string) {
    name + ("@coverage-" + hash(structure))
  }

  function Disambiguated(hash: Suffix, xml: Xml, structure: string): (r: Xml)
    ensures |r| == |xml|
  {
    var i := First(xml, HasNameFirst);
    if i < |xml| then xml[i := xml[i].(name := Some(RenamedTo(hash, xml[i].name.value, structure)))] else xml
  }

  // ----- the distinct identities, in order of first appearance -----

  function Ids(seen: seq<Filed>): (ids: seq<Identity>)
  {
    if seen == [] then []
    else
      var before := Ids(seen[..|seen| - 1]);
      var id := seen[|seen| - 1].Id();
      if id in before then before else before + [id]
  }

  lemma {:induction false} IdsAreDistinct(seen: seq<Filed>)
    ensures forall i, j | 0 <= i < j < |Ids(seen)| :: Ids(seen)[i] != Ids(seen)[j]
  {
    if seen != [] {
      IdsAreDistinct(seen[..|seen| - 1]);
    }
  }

  lemma {:induction false} IdIsListed(seen: seq<Filed>, f: Filed)
    requires f in seen
    ensures f.Id() in Ids(seen)
  {
    var init, last := seen[..|seen| - 1], seen[|seen| - 1];
    assert seen == init + [last];
    if f in init {
      IdIsListed(init, f);
    }
  }

  lemma {:induction false} IdHasMethod(seen: seq<Filed>, id: Identity) returns (f: Filed)
    requires id in Ids(seen)
    ensures f in seen && f.Id() == id
  {
    var init, last := seen[..|seen| - 1], seen[|seen| - 1];
    assert seen == init + [last];
    if id in Ids(init) {
      f := IdHasMethod(init, id);
    } else {
      f := last;
    }
  }

  /** Identities are listed in the order in which they first appear. */
  lemma {:induction false} IdsInOrder(seen: seq<Filed>, i: nat, j: nat) returns (p: nat)
    requires i < j < |Ids(seen)|
    ensures p < |seen| && seen[p].Id() == Ids(seen)[i]
    ensures forall q | 0 <= q <= p :: seen[q].Id() != Ids(seen)[j]
  {
    var init, ids := seen[..|seen| - 1], Ids(seen);
    var before := Ids(init);
    assert forall k | 0 <= k < |before| :: ids[k] == before[k];
    assert forall q | 0 <= q < |init| :: init[q] == seen[q];
    if j < |before| {
      p := IdsInOrder(init, i, j);
    } else {
      var f := IdHasMethod(init, before[i]);
      p :| 0 <= p < |init| && init[p] == f;
      forall q | 0 <= q <= p ensures seen[q].Id() != ids[j] {
        IdIsListed(init, init[q]);
      }
    }
  }

  ghost predicate KeySeen(seen: seq<Filed>, key: Key) {
    exists f :: f in seen && f.key == key
  }

  /** Methods with one identity have the same line shapes. */
  ghost predicate Consistent(seen: seq<Filed>) {
    forall f, g | f in seen && g in seen && f.Id() == g.Id() :: Mergeable(f.xml, g.xml)
  }

  ghost predicate SeparableAll(seen: seq<Filed>) {
    forall f | f in seen :: AllSeparable(Tags(f.xml))
  }

  ghost predicate DistinctAll(seen: seq<Filed>) {
    forall f | f in seen :: DistinctNumbers(Tags(f.xml))
  }

  /** A structure key that cannot be misread makes conflicts impossible. */
  lemma {:induction false} SeparableIsConsistent(seen: seq<Filed>)
    requires SeparableAll(seen)
    ensures Consistent(seen)
  {
    forall f, g | f in seen && g in seen && f.Id() == g.Id() ensures Mergeable(f.xml, g.xml) {
      StructureInjective(Tags(f.xml), Tags(g.xml));
    }
  }

  // ----- what is stored for an identity -----

  /** The text kept for the first method of an identity. */
  ghost function Stored(hash: Suffix, before: seq<Filed>, f: Filed): (r: Xml) {
    if KeySeen(before, f.key) then Disambiguated(hash, f.xml, Structure(Tags(f.xml))) else f.xml
  }

  lemma {:induction false} TagsOfStored(hash: Suffix, before: seq<Filed>, f: Filed)
    ensures Tags(Stored(hash, before, f)) == Tags(f.xml)
  {
  }

  lemma {:induction false} SubstitutionsKeepShape(xml: Xml, left: Xml, todo: seq<string>, right: Profile)
    ensures SameShape(Tags(xml), Tags(Substituted(xml, left, todo, right)))
    decreases |todo|
  {
    if todo != [] && Mentions(left, todo[0]) && todo[0] in right {
      var raw := RawOf(left, todo[0]);
      var wide := Wide(raw, right[todo[0]]);
      assert SameShape(Tags(xml), Tags(ReplaceFirst(xml, raw, wide)));
      SubstitutionsKeepShape(ReplaceFirst(xml, raw, wide), left, todo[1..], right);
    }
  }

  lemma {:induction false} MergedKeepsShape(left: Xml, right: Xml)
    ensures SameShape(Tags(left), Tags(Merged(left, right)))
    ensures Mergeable(Merged(left, right), left)
    ensures Structure(Tags(Merged(left, right))) == Structure(Tags(left))
  {
    var ls, rs := Numbers(Tags(left)), Lookup(Tags(right));
    SubstitutionsKeepShape(left, left, ls, rs);
    TagsOfRated(Substituted(left, left, ls, rs));
    SameShapeSameStructure(Tags(left), Tags(Merged(left, right)));
  }

  /** The text held for an identity after a history of filed methods. */
  ghost function Survivor(hash: Suffix, seen: seq<Filed>, id: Identity): (r: Xml)
    decreases |seen|
  {
    if seen == [] then []
    else
      var init, last := seen[..|seen| - 1], seen[|seen| - 1];
      if last.Id() != id then Survivor(hash, init, id)
      else if id in Ids(init) then Merged(Survivor(hash, init, id), last.xml)
      else Stored(hash, init, last)
  }

  lemma {:induction false} SurvivorOfOther(hash: Suffix, init: seq<Filed>, last: Filed, id: Identity)
    requires last.Id() != id
    ensures Survivor(hash, init + [last], id) == Survivor(hash, init, id)
  {
    var seen := init + [last];
    assert seen[..|seen| - 1] == init && seen[|seen| - 1] == last;
  }

  lemma {:induction false} SurvivorOfLast(hash: Suffix, init: seq<Filed>, last: Filed)
    ensures Survivor(hash, init + [last], last.Id())
            == if last.Id() in Ids(init) then Merged(Survivor(hash, init, last.Id()), last.xml)
               else Stored(hash, init, last)
  {
    var seen := init + [last];
    assert seen[..|seen| - 1] == init && seen[|seen| - 1] == last;
  }

  /** What is stored keeps the line shapes of the methods filed under the identity. */
  lemma {:induction false} SurvivorKeepsShape(hash: Suffix, seen: seq<Filed>, f: Filed)
    requires Consistent(seen) && f in seen
    ensures Mergeable(Survivor(hash, seen, f.Id()), f.xml)
    ensures Structure(Tags(Survivor(hash, seen, f.Id()))) == f.Id().structure
    decreases |seen|
  {
    var init, last := seen[..|seen| - 1], seen[|seen| - 1];
    assert seen == init + [last];
    if last.Id() != f.Id() {
      SurvivorOfOther(hash, init, last, f.Id());
      SurvivorKeepsShape(hash, init, f);
    } else {
      SurvivorOfLast(hash, init, last);
      if f.Id() in Ids(init) {
        var g := IdHasMethod(init, f.Id());
        assert Mergeable(g.xml, f.xml) && Mergeable(g.xml, last.xml);
        SurvivorKeepsShape(hash, init, g);
        MergedKeepsShape(Survivor(hash, init, f.Id()), last.xml);
      } else {
        TagsOfStored(hash, init, last);
        assert Mergeable(last.xml, f.xml);
      }
    }
  }

  ghost predicate ReadableAll(seen: seq<Filed>) {
    forall f | f in seen :: Readable(Tags(f.xml))
  }

  lemma {:induction false} SurvivorIsReadable(hash: Suffix, seen: seq<Filed>, id: Identity)
    requires ReadableAll(seen)
    ensures Readable(Tags(Survivor(hash, seen, id)))
    decreases |seen|
  {
    if seen != [] {
      var init, last := seen[..|seen| - 1], seen[|seen| - 1];
      assert seen == init + [last];
      SurvivorIsReadable(hash, init, id);
      MergedKeepsShape(Survivor(hash, init, id), last.xml);
      TagsOfStored(hash, init, last);
    }
  }

  // ----- the closed form -----

  /** The profiles filed under an identity, in order. */
  function Occurrences(seen: seq<Filed>, id: Identity): (r: seq<Xml>)
    ensures r != [] <==> id in Ids(seen)
  {
    if seen == [] then []
    else
      var init, last := seen[..|seen| - 1], seen[|seen| - 1];
      if last.Id() == id then Occurrences(init, id) + [last.xml] else Occurrences(init, id)
  }

  lemma {:induction false} OccurrencesAreFiled(seen: seq<Filed>, id: Identity)
    ensures forall x | x in Occurrences(seen, id) :: Filed(id.key, x) in seen && Filed(id.key, x).Id() == id
  {
    if seen != [] {
      var init, last := seen[..|seen| - 1], seen[|seen| - 1];
      assert seen == init + [last];
      OccurrencesAreFiled(init, id);
    }
  }

  /** Whether the identity is a structural collision: its key was taken when it first appeared. */
  ghost predicate Collides(seen: seq<Filed>, id: Identity)
    requires id in Ids(seen)
    decreases |seen|
  {
    var init := seen[..|seen| - 1];
    if id in Ids(init) then Collides(init, id) else KeySeen(init, id.key)
  }

  /** The first profile of an identity, renamed when it collides. */
  ghost function Base(hash: Suffix, seen: seq<Filed>, id: Identity): (r: Xml)
    requires id in Ids(seen)
  {
    var first := Occurrences(seen, id)[0];
    if Collides(seen, id) then Disambiguated(hash, first, id.structure) else first
  }

  function Profiles(xs: seq<Xml>): (r: seq<Profile>) {
    seq(|xs|, i requires 0 <= i < |xs| => Lookup(Tags(xs[i])))
  }

  /** First profile, with every line at the maximum over all profiles and rates to match. */
  ghost function ClosedForm(hash: Suffix, seen: seq<Filed>, id: Identity): (r: Xml)
    requires id in Ids(seen)
  {
    var base, all := Base(hash, seen, id), Occurrences(seen, id);
    if |all| == 1 then base
    else Rated(Retag(base, Spread(Tags(base), Profiles(all))))
  }

  lemma {:induction false} TagsOfBase(hash: Suffix, seen: seq<Filed>, id: Identity)
    requires id in Ids(seen)
    ensures Tags(Base(hash, seen, id)) == Tags(Occurrences(seen, id)[0])
  {
  }

  /** The stored text is the closed form: nothing is lost, and nothing depends on merge steps. */
  lemma {:induction false} SurvivorIsClosedForm(hash: Suffix, seen: seq<Filed>, id: Identity)
    requires Consistent(seen) && DistinctAll(seen) && id in Ids(seen)
    ensures Survivor(hash, seen, id) == ClosedForm(hash, seen, id)
    decreases |seen|
  {
    var init, last := seen[..|seen| - 1], seen[|seen| - 1];
    assert seen == init + [last];
    if id !in Ids(init) {
      SurvivorOfLast(hash, init, last);
      ClosedFormOfFirst(hash, init, last);
    } else {
      SurvivorIsClosedForm(hash, init, id);
      if last.Id() == id {
        SurvivorOneMore(hash, init, last);
      } else {
        SurvivorOfOther(hash, init, last, id);
        ClosedFormOfOther(hash, init, last, id);
      }
    }
  }

  lemma {:induction false} ClosedFormOfOther(hash: Suffix, init: seq<Filed>, last: Filed, id: Identity)
    requires id in Ids(init) && last.Id() != id
    ensures id in Ids(init + [last])
    ensures ClosedForm(hash, init + [last], id) == ClosedForm(hash, init, id)
  {
    var seen := init + [last];
    assert seen[..|seen| - 1] == init && seen[|seen| - 1] == last;
    assert Occurrences(seen, id) == Occurrences(init, id);
  }

  lemma {:induction false} ClosedFormOfFirst(hash: Suffix, init: seq<Filed>, last: Filed)
    requires last.Id() !in Ids(init)
    ensures last.Id() in Ids(init + [last])
    ensures ClosedForm(hash, init + [last], last.Id()) == Stored(hash, init, last)
  {
    var seen, id := init + [last], last.Id();
    assert seen[..|seen| - 1] == init && seen[|seen| - 1] == last;
    assert Occurrences(seen, id) == [last.xml];
  }

  lemma {:induction false} SurvivorOneMore(hash: Suffix, init: seq<Filed>, last: Filed)
    requires Consistent(init + [last]) && DistinctAll(init + [last])
    requires last.Id() in Ids(init)
    requires Survivor(hash, init, last.Id()) == ClosedForm(hash, init, last.Id())
    ensures last.Id() in Ids(init + [last])
    ensures Survivor(hash, init + [last], last.Id()) == ClosedForm(hash, init + [last], last.Id())
  {
    var id := last.Id();
    var base, all := Base(hash, init, id), Occurrences(init, id);
    TagsOfBase(hash, init, id);
    OccurrencesAreFiled(init, id);
    assert Filed(id.key, all[0]) in init + [last] && last in init + [last];
    assert Mergeable(all[0], last.xml) by {
      assert Filed(id.key, all[0]).Id() == last.Id();
    }
    SurvivorOfLast(hash, init, last);
    ClosedFormStep(hash, init, last);
    MergeIntoClosedForm(base, all, last.xml);
  }

  lemma {:induction false} ClosedFormStep(hash: Suffix, init: seq<Filed>, last: Filed)
    requires last.Id() in Ids(init)
    ensures last.Id() in Ids(init + [last])
    ensures var base, all := Base(hash, init, last.Id()), Occurrences(init, last.Id());
            ClosedForm(hash, init + [last], last.Id())
            == Rated(Retag(base, Spread(Tags(base), Profiles(all + [last.xml]))))
  {
    var seen := init + [last];
    assert seen[..|seen| - 1] == init && seen[|seen| - 1] == last;
    assert Occurrences(seen, last.Id()) == Occurrences(init, last.Id()) + [last.xml];
  }

  lemma {:induction false} MergeIntoClosedForm(base: Xml, all: seq<Xml>, right: Xml)
    requires all != [] && Tags(base) == Tags(all[0])
    requires DistinctNumbers(Tags(base)) && Mergeable(base, right)
    ensures var left := if |all| == 1 then base else Rated(Retag(base, Spread(Tags(base), Profiles(all))));
            Mergeable(left, right) &&
            Merged(left, right) == Rated(Retag(base, Spread(Tags(base), Profiles(all + [right]))))
  {
    var rs := Lookup(Tags(right));
    assert Profiles(all + [right]) == Profiles(all) + [rs];
    if |all| == 1 {
      MergedIsPointwiseMax(base, right);
      assert Profiles(all) + [rs] == [Lookup(Tags(base)), rs];
    } else {
      MergingOneMore(base, Profiles(all), right);
    }
  }

  lemma {:induction false} TagsOfClosedForm(hash: Suffix, seen: seq<Filed>, id: Identity)
    requires id in Ids(seen)
    ensures var all := Occurrences(seen, id);
            Tags(ClosedForm(hash, seen, id))
            == if |all| == 1 then Tags(all[0]) else Spread(Tags(all[0]), Profiles(all))
  {
    TagsOfBase(hash, seen, id);
    var base, all := Base(hash, seen, id), Occurrences(seen, id);
    var wide := Spread(Tags(base), Profiles(all));
    TagsOfRetag(base, wide);
    TagsOfRated(Retag(base, wide));
  }

  lemma {:induction false} SpreadTakesMaxima(tags: seq<CoverTag>, group: seq<Profile>, number: string)
    requires DistinctNumbers(tags) && number in Numbers(tags)
    ensures number in Lookup(Spread(tags, group))
    ensures Lookup(Spread(tags, group))[number]
            == Recounted(Lookup(tags)[number], MaxHits(group, number), MaxCovered(group, number))
  {
    var i := LookupSource(tags, number);
    SpreadKeepsShape(tags, group);
    LookupOfLine(Spread(tags, group), i);
  }

  /** Every retained line carries the maxima over all the profiles of its identity. */
  lemma {:induction false} SurvivorTakesMaxima(hash: Suffix, seen: seq<Filed>, id: Identity, number: string)
    requires Consistent(seen) && DistinctAll(seen) && id in Ids(seen)
    requires number in Numbers(Tags(Occurrences(seen, id)[0]))
    ensures var kept := Lookup(Tags(Survivor(hash, seen, id)));
            var first := Lookup(Tags(Occurrences(seen, id)[0]))[number];
            var profiles := Profiles(Occurrences(seen, id));
            && number in kept
            && kept[number].Shape() == first.Shape()
            && kept[number].hits == MaxHits(profiles, number)
            && kept[number].Covered() ==
                 if first.Total() > 0 then MaxCovered(profiles, number) else first.Covered()
  {
    SurvivorIsClosedForm(hash, seen, id);
    TagsOfClosedForm(hash, seen, id);
    var all := Occurrences(seen, id);
    OccurrencesAreFiled(seen, id);
    assert Filed(id.key, all[0]) in seen;
    if |all| == 1 {
      var p := Lookup(Tags(all[0]));
      assert Profiles(all) == [p];
      MaximaOfTwo(p, p, number);
    } else {
      SpreadTakesMaxima(Tags(all[0]), Profiles(all), number);
    }
  }

  /** One of the first `n` identities has the key. */
  ghost predicate Listed(ids: seq<Identity>, n: nat, key: Key) {
    exists j :: 0 <= j < n <= |ids| && ids[j].key == key
  }

  lemma {:induction false} ListedInPrefix(ids: seq<Identity>, before: seq<Identity>, n: nat, key: Key)
    requires before <= ids && n <= |before|
    ensures Listed(ids, n, key) <==> Listed(before, n, key)
  {
    if Listed(ids, n, key) {
      var j :| 0 <= j < n && ids[j].key == key;
      assert before[j].key == key;
    }
    if Listed(before, n, key) {
      var j :| 0 <= j < n && before[j].key == key;
      assert ids[j].key == key;
    }
  }

  lemma {:induction false} KeySeenIffListed(seen: seq<Filed>, key: Key)
    ensures KeySeen(seen, key) <==> Listed(Ids(seen), |Ids(seen)|, key)
  {
    if f :| f in seen && f.key == key {
      IdIsListed(seen, f);
      assert f.Id() in Ids(seen) && f.Id().key == key;
    }
    if Listed(Ids(seen), |Ids(seen)|, key) {
      var j :| 0 <= j < |Ids(seen)| && Ids(seen)[j].key == key;
      var f := IdHasMethod(seen, Ids(seen)[j]);
    }
  }

  /** An identity is a collision exactly if an identity listed before it has the same key. */
  lemma {:induction false} CollidesIffListedBefore(seen: seq<Filed>, i: nat)
    requires i < |Ids(seen)|
    ensures Collides(seen, Ids(seen)[i]) <==> Listed(Ids(seen), i, Ids(seen)[i].key)
    decreases |seen|
  {
    var init, ids := seen[..|seen| - 1], Ids(seen);
    var before := Ids(init);
    ListedInPrefix(ids, before, if i < |before| then i else |before|, ids[i].key);
    if i < |before| {
      CollidesIffListedBefore(init, i);
      assert ids[i] == before[i] && ids[i] in before;
    } else {
      IdsAreDistinct(seen);
      assert ids[i] !in before && i == |before|;
      KeySeenIffListed(init, ids[i].key);
    }
  }

  lemma {:induction false} SameListingSameCollisions(seen: seq<Filed>, seen': seq<Filed>, id: Identity)
    requires Ids(seen) == Ids(seen') && id in Ids(seen)
    ensures Collides(seen, id) == Collides(seen', id)
  {
    var i :| 0 <= i < |Ids(seen)| && Ids(seen)[i] == id;
    CollidesIffListedBefore(seen, i);
    CollidesIffListedBefore(seen', i);
  }

  /** The same identities in the same order, each with the same first profile and the same profiles in all. */
  ghost predicate SameProfiles(seen: seq<Filed>, seen': seq<Filed>) {
    && Ids(seen) == Ids(seen')
    && forall id | id in Ids(seen) ::
         && Occurrences(seen, id)[0] == Occurrences(seen', id)[0]
         && multiset(Occurrences(seen, id)) == multiset(Occurrences(seen', id))
  }

  /** A method occurs among the profiles of its identity as often as among all methods. */
  lemma {:induction false} OccurrenceCount(seen: seq<Filed>, f: Filed)
    ensures multiset(Occurrences(seen, f.Id()))[f.xml] == multiset(seen)[f]
  {
    if seen != [] {
      var init, last := seen[..|seen| - 1], seen[|seen| - 1];
      assert seen == init + [last];
      OccurrenceCount(init, f);
      assert multiset(seen)[f] == multiset(init)[f] + if last == f then 1 else 0;
      if last.Id() == f.Id() {
        var before := Occurrences(init, f.Id());
        assert multiset(before + [last.xml])[f.xml] == multiset(before)[f.xml] + if last.xml == f.xml then 1 else 0;
      }
    }
  }

  /** The same profiles are the same methods, in another order. */
  lemma {:induction false} SameProfilesSameMethods(seen: seq<Filed>, seen': seq<Filed>)
    requires SameProfiles(seen, seen')
    ensures multiset(seen) == multiset(seen')
  {
    forall f: Filed ensures multiset(seen)[f] == multiset(seen')[f] {
      OccurrenceCount(seen, f);
      OccurrenceCount(seen', f);
      if f.Id() in Ids(seen) {
        assert multiset(Occurrences(seen, f.Id())) == multiset(Occurrences(seen', f.Id()));
      } else {
        assert Occurrences(seen, f.Id()) == [] && Occurrences(seen', f.Id()) == [];
      }
    }
  }

  lemma {:induction false} SameMembers(seen: seq<Filed>, seen': seq<Filed>)
    requires multiset(seen) == multiset(seen')
    ensures |seen| == |seen'| && forall f :: f in seen <==> f in seen'
  {
    assert |multiset(seen)| == |seen| && |multiset(seen')| == |seen'|;
    assert forall f :: f in seen <==> f in multiset(seen);
    assert forall f :: f in seen' <==> f in multiset(seen');
  }

  /** What is kept of an identity does not depend on the order in which later duplicates arrive. */
  lemma {:induction false} SurvivorIgnoresOrder(hash: Suffix, seen: seq<Filed>, seen': seq<Filed>, id: Identity)
    requires Consistent(seen) && DistinctAll(seen) && SameProfiles(seen, seen') && id in Ids(seen)
    ensures Survivor(hash, seen, id) == Survivor(hash, seen', id)
  {
    SameProfilesSameMethods(seen, seen');
    SameMembers(seen, seen');
    SameListingSameCollisions(seen, seen', id);
    SurvivorIsClosedForm(hash, seen, id);
    SurvivorIsClosedForm(hash, seen', id);
    var all, all' := Occurrences(seen, id), Occurrences(seen', id);
    assert |all| == |multiset(all)| == |multiset(all')| == |all'|;
    ProfilesOfPermutation(all, all');
    ProfilesOfPermutation(all', all);
    SpreadOfSameMembers(Tags(Base(hash, seen, id)), Profiles(all), Profiles(all'));
  }

  lemma {:induction false} ProfilesOfPermutation(xs: seq<Xml>, ys: seq<Xml>)
    requires multiset(xs) == multiset(ys)
    ensures forall p | p in Profiles(xs) :: p in Profiles(ys)
  {
    forall i | 0 <= i < |xs| ensures Profiles(xs)[i] in Profiles(ys) {
      assert xs[i] in multiset(ys);
      var j :| 0 <= j < |ys| && ys[j] == xs[i];
      assert Profiles(ys)[j] == Profiles(xs)[i];
    }
  }
}
