/**
 The text of a Cobertura report as the normalizer reads it: one record per line, holding exactly
 what the script's substring tests and attribute patterns can observe, and the per-method view
 built from those records (line coverage, and the structure key that identifies a method).
 */
module CoberturaLines {

  import opened Outcomes
  import opened Text

  /** `condition-coverage="percent% (covered/total)"` */
  datatype Condition = Condition(percent: nat, covered: nat, total: nat)

  /** The attributes of one `<line ...>` element. */
  datatype Entry = Entry(number: string, branch: string, hits: nat, condition: Option<Condition>)
  {
    function Covered(): nat { if condition.Some? then condition.value.covered else 0 }

    function Total(): nat { if condition.Some? then condition.value.total else 0 }

    function Shape(): LineShape { LineShape(number, branch, Total()) }
  }

  /** The part of an entry that merging must not change. */
  datatype LineShape = LineShape(number: string, branch: string, total: nat)

  /** `Malformed` is a `<line ` element that lacks an attribute the script needs. */
  datatype CoverTag = NoTag | Malformed | Covers(entry: Entry)

  /** A rate attribute: as read from the report, or recomputed by a merge. */
  datatype Rate = Verbatim(text: string) | Recomputed(covered: nat, total: nat)

  datatype Line = Line(
    text: string,                // whatever the fields below do not hold
    classOpen: bool,             // contains `<class `
    classClose: bool,            // contains `</class>`
    methodsOpen: bool,           // contains `<methods>`
    methodsClose: bool,          // contains `</methods>`
    methodOpen: bool,            // contains `<method `
    methodClose: bool,           // contains `</method>`
    nameFirst: bool,             // contains `<method name="`
    name: Option<string>,        // first `name="..."`
    signature: Option<string>,   // first `signature="..."`
    tag: CoverTag,               // its `<line ` element
    lineRate: Option<Rate>,
    branchRate: Option<Rate>)

  type Xml = seq<Line>

  function Tags(xml: Xml): (tags: seq<CoverTag>) {
    seq(|xml|, i requires 0 <= i < |xml| => xml[i].tag)
  }

  predicate Readable(tags: seq<CoverTag>) {
    forall i | 0 <= i < |tags| :: tags[i] != Malformed
  }

  // ----- method_line_coverage: an ordered hash from line number to entry -----

  /** The keys of the hash, in order of first insertion. */
  function Numbers(tags: seq<CoverTag>): (numbers: seq<string>)
  {
    if tags == [] then []
    else
      var before := Numbers(tags[..|tags| - 1]);
      var last := tags[|tags| - 1];
      if last.Covers? && last.entry.number !in before then before + [last.entry.number] else before
  }

  /** The hash itself: a later entry for a number replaces an earlier one. */
  function Lookup(tags: seq<CoverTag>): (m: map<string, Entry>)
    ensures forall n :: n in m <==> n in Numbers(tags)
    ensures forall n | n in m :: m[n].number == n
  {
    if tags == [] then map[]
    else
      var before := Lookup(tags[..|tags| - 1]);
      var last := tags[|tags| - 1];
      if last.Covers? then before[last.entry.number := last.entry] else before
  }

  ghost predicate DistinctNumbers(tags: seq<CoverTag>) {
    forall i, j | 0 <= i < j < |tags| && tags[i].Covers? && tags[j].Covers? ::
      tags[i].entry.number != tags[j].entry.number
  }

  lemma {:induction false} NumbersAreDistinct(tags: seq<CoverTag>)
    ensures forall i, j | 0 <= i < j < |Numbers(tags)| :: Numbers(tags)[i] != Numbers(tags)[j]
  {
    if tags != [] {
      NumbersAreDistinct(tags[..|tags| - 1]);
    }
  }

  /** Every entry of the hash comes from some line. */
  lemma {:induction false} LookupSource(tags: seq<CoverTag>, number: string) returns (i: nat)
    requires number in Lookup(tags)
    ensures i < |tags| && tags[i] == Covers(Lookup(tags)[number])
  {
    var init, last := tags[..|tags| - 1], tags[|tags| - 1];
    if last.Covers? && last.entry.number == number {
      i := |tags| - 1;
    } else {
      i := LookupSource(init, number);
    }
  }

  /** With distinct line numbers the hash holds each line's own entry. */
  lemma {:induction false} LookupOfLine(tags: seq<CoverTag>, i: nat)
    requires DistinctNumbers(tags) && i < |tags| && tags[i].Covers?
    ensures tags[i].entry.number in Lookup(tags)
    ensures Lookup(tags)[tags[i].entry.number] == tags[i].entry
  {
    var init := tags[..|tags| - 1];
    if i < |init| {
      assert init[i] == tags[i];
      LookupOfLine(init, i);
    }
  }

  // ----- method_structure -----

  function Shapes(tags: seq<CoverTag>): (s: seq<LineShape>)
    ensures |s| == |Numbers(tags)|
  {
    var numbers, entries := Numbers(tags), Lookup(tags);
    seq(|numbers|, i requires 0 <= i < |numbers| => entries[numbers[i]].Shape())
  }

  function ShapeKey(s: LineShape): (key: string) {
    s.number + ":" + s.branch + ":" + Decimal(s.total)
  }

  function JoinKeys(shapes: seq<LineShape>): (key: string) {
    if shapes == [] then ""
    else if |shapes| == 1 then ShapeKey(shapes[0])
    else ShapeKey(shapes[0]) + "|" + JoinKeys(shapes[1..])
  }

  function Structure(tags: seq<CoverTag>): (key: string) {
    JoinKeys(Shapes(tags))
  }

  /** A shape whose fields cannot be confused with the separators of the structure key. */
  predicate Separable(s: LineShape) {
    ':' !in s.number && '|' !in s.number && '|' !in s.branch
  }

  predicate AllSeparable(tags: seq<CoverTag>) {
    forall i | 0 <= i < |tags| && tags[i].Covers? :: Separable(tags[i].entry.Shape())
  }

  lemma ShapeKeyInjective(s: LineShape, t: LineShape)
    requires Separable(s) && Separable(t)
    requires ShapeKey(s) == ShapeKey(t)
    ensures s == t
  {
    DecimalRoundTrip(s.total);
    DecimalRoundTrip(t.total);
    var restS, restT := ":" + s.branch + ":" + Decimal(s.total), ":" + t.branch + ":" + Decimal(t.total);
    assert ShapeKey(s) == s.number + restS && ShapeKey(t) == t.number + restT;
    CutAtFirst(':', s.number, restS, t.number, restT);
    assert restS == (":" + s.branch) + [':'] + Decimal(s.total);
    assert restT == (":" + t.branch) + [':'] + Decimal(t.total);
    CutAtLast(':', ":" + s.branch, Decimal(s.total), ":" + t.branch, Decimal(t.total));
    assert s.branch == (":" + s.branch)[1..] == (":" + t.branch)[1..] == t.branch;
    DecimalInjective(s.total, t.total);
  }

  lemma ShapeKeyHasNoBar(s: LineShape)
    requires Separable(s)
    ensures '|' !in ShapeKey(s) && ShapeKey(s) != ""
  {
    DecimalRoundTrip(s.total);
  }

  lemma OnlyNoShapesJoinToNothing(shapes: seq<LineShape>)
    ensures JoinKeys(shapes) == "" <==> shapes == []
  {
  }

  function RestKey(shapes: seq<LineShape>): (key: string)
    requires shapes != []
    ensures JoinKeys(shapes) == ShapeKey(shapes[0]) + key
    ensures StartsWithOrEmpty(key, '|')
  {
    if |shapes| == 1 then "" else "|" + JoinKeys(shapes[1..])
  }

  /** The structure key determines the list of line shapes. */
  lemma {:induction false} JoinKeysInjective(a: seq<LineShape>, b: seq<LineShape>)
    requires (forall s | s in a :: Separable(s)) && (forall s | s in b :: Separable(s))
    requires JoinKeys(a) == JoinKeys(b)
    ensures a == b
  {
    OnlyNoShapesJoinToNothing(a);
    OnlyNoShapesJoinToNothing(b);
    if a != [] {
      ShapeKeyHasNoBar(a[0]);
      ShapeKeyHasNoBar(b[0]);
      CutAtFirst('|', ShapeKey(a[0]), RestKey(a), ShapeKey(b[0]), RestKey(b));
      ShapeKeyInjective(a[0], b[0]);
      if |a| > 1 && |b| > 1 {
        assert JoinKeys(a[1..]) == RestKey(a)[1..] == RestKey(b)[1..] == JoinKeys(b[1..]);
        JoinKeysInjective(a[1..], b[1..]);
      }
      assert a == [a[0]] + a[1..] && b == [b[0]] + b[1..];
    }
  }

  lemma {:induction false} StructureInjective(a: seq<CoverTag>, b: seq<CoverTag>)
    requires AllSeparable(a) && AllSeparable(b)
    requires Structure(a) == Structure(b)
    ensures Shapes(a) == Shapes(b)
  {
    ShapesAreSeparable(a);
    ShapesAreSeparable(b);
    JoinKeysInjective(Shapes(a), Shapes(b));
  }

  lemma {:induction false} ShapesAreSeparable(tags: seq<CoverTag>)
    requires AllSeparable(tags)
    ensures forall s | s in Shapes(tags) :: Separable(s)
  {
    forall k | 0 <= k < |Shapes(tags)| ensures Separable(Shapes(tags)[k]) {
      var i := LookupSource(tags, Numbers(tags)[k]);
    }
  }

  lemma {:induction false} ShapesOfOne(a: Entry)
    ensures Numbers([Covers(a)]) == [a.number] && Lookup([Covers(a)]) == map[a.number := a]
    ensures Shapes([Covers(a)]) == [a.Shape()]
  {
    assert [Covers(a)][..0] == [];
  }

  lemma {:induction false} ShapesOfTwo(a: Entry, b: Entry)
    requires a.number != b.number
    ensures Numbers([Covers(a), Covers(b)]) == [a.number, b.number]
    ensures Shapes([Covers(a), Covers(b)]) == [a.Shape(), b.Shape()]
  {
    var two := [Covers(a), Covers(b)];
    ShapesOfOne(a);
    assert two[..1] == [Covers(a)];
    assert Lookup(two) == map[a.number := a, b.number := b];
  }

  lemma {:induction false} CollidingKeys() returns (x: LineShape, y: LineShape, z: LineShape)
    ensures y.number != z.number && x.total == 0 && y.total == 0 && z.total == 0
    ensures JoinKeys([x]) == JoinKeys([y, z])
  {
    x, y, z := LineShape("1", "a:0|2:b", 0), LineShape("1", "a", 0), LineShape("2", "b", 0);
    assert Decimal(0) == "0";
    assert ShapeKey(x) == "1:a:0|2:b:0" && ShapeKey(y) == "1:a:0" && ShapeKey(z) == "2:b:0";
    assert [y, z][1..] == [z];
  }

  /** A line of a given shape without conditions. */
  function Uncovered(s: LineShape): (e: Entry) { Entry(s.number, s.branch, 0, None) }

  /** Without the separator condition two different line lists can share a key. */
  lemma {:induction false} StructureCollides() returns (one: seq<CoverTag>, two: seq<CoverTag>)
    ensures Readable(one) && Readable(two) && DistinctNumbers(one) && DistinctNumbers(two)
    ensures Structure(one) == Structure(two) && Numbers(one) != Numbers(two)
  {
    var x, y, z := CollidingKeys();
    one, two := [Covers(Uncovered(x))], [Covers(Uncovered(y)), Covers(Uncovered(z))];
    ShapesOfOne(Uncovered(x));
    ShapesOfTwo(Uncovered(y), Uncovered(z));
  }

  // ----- rewriting tags in place -----

  /** Line by line the same element with the same shape. */
  ghost predicate SameShape(a: seq<CoverTag>, b: seq<CoverTag>) {
    && |a| == |b|
    && forall i | 0 <= i < |a| ::
         && a[i].Covers? == b[i].Covers?
         && a[i].Malformed? == b[i].Malformed?
         && (a[i].Covers? ==> a[i].entry.Shape() == b[i].entry.Shape())
  }

  lemma {:induction false} SameShapeSameLookup(a: seq<CoverTag>, b: seq<CoverTag>)
    requires SameShape(a, b)
    ensures Numbers(a) == Numbers(b)
    ensures forall n | n in Numbers(a) :: Lookup(a)[n].Shape() == Lookup(b)[n].Shape()
  {
    if a != [] {
      SameShapeSameLookup(a[..|a| - 1], b[..|b| - 1]);
    }
  }

  /** Rewriting hits and covered counts keeps the structure key. */
  lemma {:induction false} SameShapeSameStructure(a: seq<CoverTag>, b: seq<CoverTag>)
    requires SameShape(a, b)
    ensures Shapes(a) == Shapes(b)
    ensures Structure(a) == Structure(b)
  {
    SameShapeSameLookup(a, b);
  }
}
