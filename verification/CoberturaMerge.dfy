/** Merging two profiles of one method (`merge_method_xml`) by editing its text. */
module CoberturaMerge {

  import opened Outcomes
  import opened CoberturaLines

  datatype Error =
    | MissingAttribute
    | NestedClass
    | MethodOutsideClass
    | ConflictingLines
    | ConflictingBranches
    | UnterminatedMethod
    | UnterminatedMethods
    | UnterminatedClass

  function Max(a: nat, b: nat): nat { if a < b then b else a }

  // ----- editing a method's text -----

  /** Position of the first line with a property, or the length when there is none. */
  function First(xml: Xml, p: Line -> bool): (i: nat)
    ensures i <= |xml|
    ensures i < |xml| ==> p(xml[i])
    ensures forall j | 0 <= j < i :: !p(xml[j])
  {
    if xml == [] then 0 else if p(xml[0]) then 0 else 1 + First(xml[1..], p)
  }

  function FirstEqual(xml: Xml, line: Line): (i: nat)
    ensures i <= |xml|
    ensures i < |xml| ==> xml[i] == line
    ensures forall j | 0 <= j < i :: xml[j] != line
  {
    if xml == [] then 0 else if xml[0] == line then 0 else 1 + FirstEqual(xml[1..], line)
  }

  predicate HasLineRate(l: Line) { l.lineRate.Some? }

  predicate HasBranchRate(l: Line) { l.branchRate.Some? }

  function ReplaceFirst(xml: Xml, from: Line, to: Line): (r: Xml)
    ensures |r| == |xml|
  {
    var i := FirstEqual(xml, from);
    if i < |xml| then xml[i := to] else xml
  }

  function SetLineRate(xml: Xml, rate: Rate): (r: Xml)
    ensures |r| == |xml|
  {
    var i := First(xml, HasLineRate);
    if i < |xml| then xml[i := xml[i].(lineRate := Some(rate))] else xml
  }

  function SetBranchRate(xml: Xml, rate: Rate): (r: Xml)
    ensures |r| == |xml|
  {
    var i := First(xml, HasBranchRate);
    if i < |xml| then xml[i := xml[i].(branchRate := Some(rate))] else xml
  }

  function HitLines(numbers: seq<string>, entries: map<string, Entry>): (n: nat) {
    if numbers == [] then 0
    else HitLines(numbers[1..], entries)
         + if numbers[0] in entries && entries[numbers[0]].hits > 0 then 1 else 0
  }

  function SumTotal(numbers: seq<string>, entries: map<string, Entry>): (n: nat) {
    if numbers == [] then 0
    else SumTotal(numbers[1..], entries) + if numbers[0] in entries then entries[numbers[0]].Total() else 0
  }

  function SumCovered(numbers: seq<string>, entries: map<string, Entry>): (n: nat) {
    if numbers == [] then 0
    else SumCovered(numbers[1..], entries) + if numbers[0] in entries then entries[numbers[0]].Covered() else 0
  }

  function LineRateOf(tags: seq<CoverTag>): (r: Rate) {
    Recomputed(HitLines(Numbers(tags), Lookup(tags)), |Numbers(tags)|)
  }

  function BranchRateOf(tags: seq<CoverTag>): (r: Rate) {
    Recomputed(SumCovered(Numbers(tags), Lookup(tags)), SumTotal(Numbers(tags), Lookup(tags)))
  }

  /** Recompute both rates of a method from its lines. */
  function Rated(xml: Xml): (r: Xml)
    ensures |r| == |xml|
  {
    SetBranchRate(SetLineRate(xml, LineRateOf(Tags(xml))), BranchRateOf(Tags(xml)))
  }

  // ----- one merge -----

  /** An entry with its counts replaced; the percentage follows when there are conditions. */
  function Recounted(e: Entry, hits: nat, covered: nat): (r: Entry)
  {
    e.(hits := hits,
       condition := if e.Total() > 0
                    then Some(Condition(covered * 100 / e.Total(), covered, e.Total()))
                    else e.condition)
  }

  function Widened(l: Entry, r: Entry): (e: Entry)
  {
    Recounted(l, Max(l.hits, r.hits), Max(l.Covered(), r.Covered()))
  }

  ghost predicate Mentions(xml: Xml, number: string) {
    exists i :: 0 <= i < |xml| && xml[i].tag.Covers? && xml[i].tag.entry.number == number
  }

  /** The line that the hash keeps for a number: the last one. */
  function RawOf(xml: Xml, number: string): (l: Line)
    requires Mentions(xml, number)
    ensures l in xml && l.tag.Covers? && l.tag.entry.number == number
  {
    var last := xml[|xml| - 1];
    if last.tag.Covers? && last.tag.entry.number == number then last
    else
      assert Mentions(xml[..|xml| - 1], number) by {
        var i :| 0 <= i < |xml| && xml[i].tag.Covers? && xml[i].tag.entry.number == number;
        assert xml[..|xml| - 1][i] == xml[i];
      }
      RawOf(xml[..|xml| - 1], number)
  }

  /** The text substitutions of a merge, one per number of the left method, in order. */
  ghost function Substituted(xml: Xml, left: Xml, todo: seq<string>, right: map<string, Entry>): (r: Xml)
    decreases |todo|
  {
    if todo == [] || !Mentions(left, todo[0]) || todo[0] !in right then xml
    else
      Substituted(ReplaceFirst(xml, RawOf(left, todo[0]), Wide(RawOf(left, todo[0]), right[todo[0]])),
                  left, todo[1..], right)
  }

  function Wide(raw: Line, right: Entry): (l: Line)
    requires raw.tag.Covers?
  {
    raw.(tag := Covers(Widened(raw.tag.entry, right)))
  }

  ghost predicate Mergeable(left: Xml, right: Xml) {
    Shapes(Tags(left)) == Shapes(Tags(right))
  }

  lemma {:induction false} MergeableNumbers(left: Xml, right: Xml)
    requires Mergeable(left, right)
    ensures Numbers(Tags(left)) == Numbers(Tags(right))
  {
    var ls, rs := Numbers(Tags(left)), Numbers(Tags(right));
    forall k | 0 <= k < |ls| ensures ls[k] == rs[k] {
      assert Shapes(Tags(left))[k].number == ls[k];
      assert Shapes(Tags(right))[k].number == rs[k];
    }
  }

  lemma {:induction false} NumberIsMentioned(xml: Xml, number: string)
    requires number in Numbers(Tags(xml))
    ensures Mentions(xml, number)
  {
    var i := LookupSource(Tags(xml), number);
  }

  /** The result of a merge that finds no conflict. */
  ghost function Merged(left: Xml, right: Xml): (r: Xml) {
    Rated(Substituted(left, left, Numbers(Tags(left)), Lookup(Tags(right))))
  }

  /** Why a merge is refused, if it is. */
  ghost function Conflict(left: Xml, right: Xml): (e: Option<Error>)
    ensures e.None? <==> Readable(Tags(left)) && Readable(Tags(right)) && Mergeable(left, right)
  {
    if !(Readable(Tags(left)) && Readable(Tags(right))) then Some(MissingAttribute)
    else if Mergeable(left, right) then None
    else if Numbers(Tags(left)) == Numbers(Tags(right)) then Some(ConflictingBranches)
    else Some(ConflictingLines)
  }

  method MergeMethodXml(left: Xml, right: Xml) returns (r: Result<Xml, Error>)
    ensures match Conflict(left, right)
            case Some(e) => r == Err(e)
            case None => r == Ok(Merged(left, right))
  {
    if !Readable(Tags(left)) || !Readable(Tags(right)) {
      return Err(MissingAttribute);
    }
    var numbers, ls, rs := Numbers(Tags(left)), Lookup(Tags(left)), Lookup(Tags(right));
    if numbers != Numbers(Tags(right)) {
      if Mergeable(left, right) {
        MergeableNumbers(left, right);
      }
      return Err(ConflictingLines);
    }
    var merged := left;
    var k := 0;
    assert numbers[0..] == numbers;
    while k < |numbers|
      invariant 0 <= k <= |numbers|
      invariant forall j | 0 <= j < k :: ls[numbers[j]].Shape() == rs[numbers[j]].Shape()
      invariant Substituted(merged, left, numbers[k..], rs) == Substituted(left, left, numbers, rs)
    {
      var l, r' := ls[numbers[k]], rs[numbers[k]];
      if l.branch != r'.branch || l.Total() != r'.Total() {
        assert Shapes(Tags(left))[k] == l.Shape() && Shapes(Tags(right))[k] == r'.Shape();
        return Err(ConflictingBranches);
      }
      NumberIsMentioned(left, numbers[k]);
      var raw := RawOf(left, numbers[k]);
      assert numbers[k..][1..] == numbers[k + 1..];
      merged := ReplaceFirst(merged, raw, Wide(raw, r'));
      k := k + 1;
    }
    assert Shapes(Tags(left)) == Shapes(Tags(right));
    r := Ok(Rated(merged));
  }
}
