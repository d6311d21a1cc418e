/**
 The export of billing budgets: fetched budgets become named specifications, ordered by scope and
 name. The order in which the service lists the budgets should not show in the export.
 */
module BudgetExport {

  import opened Outcomes
  import opened StableSorting
  import opened TextOrder

  /** `A` is the type of amounts; the fields that are only copied are one field of type `D`. */
  datatype BudgetItem<A, D> = BudgetItem(
    name: Option<string>, amount: Option<A>,
    teamId: Option<string>, userId: Option<string>, agentId: Option<string>, details: D)

  datatype BudgetSpec<A, D> = BudgetSpec(
    name: string, amount: A,
    team: Option<string>, user: Option<string>, agent: Option<string>, details: D)

  datatype ScopeMaps = ScopeMaps(teams: map<string, string>, users: map<string, string>, agents: map<string, string>)

  function ResolveBudgetScopeName(id: Option<string>, namesById: map<string, string>): (r: Option<string>) {
    match id
    case None => None
    case Some(raw) => if raw in namesById then Some(namesById[raw]) else Some(raw)
  }

  function BuildBudgetSpec<A, D>(item: BudgetItem<A, D>, maps: ScopeMaps): (r: Option<BudgetSpec<A, D>>) {
    if item.name.None? || item.amount.None? then None
    else Some(BudgetSpec(item.name.value, item.amount.value,
                         ResolveBudgetScopeName(item.teamId, maps.teams),
                         ResolveBudgetScopeName(item.userId, maps.users),
                         ResolveBudgetScopeName(item.agentId, maps.agents), item.details))
  }

  function BudgetScopeSortKey<A, D>(spec: BudgetSpec<A, D>): (r: string) {
    if spec.team.Some? then "team/" + spec.team.value
    else if spec.user.Some? then "user/" + spec.user.value
    else if spec.agent.Some? then "agent/" + spec.agent.value
    else "org"
  }

  datatype SortKey = SortKey(scope: string, name: string)

  function KeyOf<A, D>(spec: BudgetSpec<A, D>): (k: SortKey) {
    SortKey(BudgetScopeSortKey(spec), spec.name)
  }

  predicate KeyLe(a: SortKey, b: SortKey) {
    if a.scope == b.scope then TextLe(a.name, b.name) else TextLe(a.scope, b.scope)
  }

  function Specs<A, D>(items: seq<BudgetItem<A, D>>, maps: ScopeMaps): (r: seq<BudgetSpec<A, D>>) {
    if items == [] then []
    else
      var spec := BuildBudgetSpec(items[0], maps);
      (if spec.Some? then [spec.value] else []) + Specs(items[1..], maps)
  }

  function ExportBudgets<A, D>(items: seq<BudgetItem<A, D>>, maps: ScopeMaps): (r: seq<BudgetSpec<A, D>>) {
    Sort(KeyOf<A, D>, KeyLe, Specs(items, maps))
  }

  // ----- keys -----

  /** The scope a budget applies to: its team, else its user, else its agent, else the organization. */
  datatype Scope = Team(name: string) | User(name: string) | Agent(name: string) | Organization

  function ScopeOf<A, D>(spec: BudgetSpec<A, D>): (r: Scope) {
    if spec.team.Some? then Team(spec.team.value)
    else if spec.user.Some? then User(spec.user.value)
    else if spec.agent.Some? then Agent(spec.agent.value)
    else Organization
  }

  /** The scope read off the fields: a team hides a user, and either hides an agent. */
  predicate AppliesTo<A, D>(spec: BudgetSpec<A, D>, scope: Scope) {
    match scope
    case Team(n) => spec.team == Some(n)
    case User(n) => spec.team.None? && spec.user == Some(n)
    case Agent(n) => spec.team.None? && spec.user.None? && spec.agent == Some(n)
    case Organization => spec.team.None? && spec.user.None? && spec.agent.None?
  }

  function Heading(scope: Scope): (h: string)
    ensures h != []
  {
    match scope
    case Team(_) => "team/"
    case User(_) => "user/"
    case Agent(_) => "agent/"
    case Organization => "org"
  }

  function NameIn(scope: Scope): (name: string) { if scope.Organization? then "" else scope.name }

  lemma KeyHasHeading<A, D>(spec: BudgetSpec<A, D>)
    ensures BudgetScopeSortKey(spec) == Heading(ScopeOf(spec)) + NameIn(ScopeOf(spec))
  {
    assert "org" + "" == "org";
  }

  lemma Headed(a: string, b: string, x: string, y: string)
    requires a != [] && b != []
    ensures a[0] != b[0] ==> a + x != b + y
    ensures a + x == a + y ==> x == y
  {
    if a[0] != b[0] {
      assert (a + x)[0] != (b + y)[0];
    }
    if a + x == a + y {
      assert x == (a + x)[|a|..] == (a + y)[|a|..] == y;
    }
  }

  /** Keys of different scopes differ: no name makes a user's budget sort as a team's. */
  lemma SortKeyIdentifiesScope<A, D>(a: BudgetSpec<A, D>, b: BudgetSpec<A, D>)
    ensures BudgetScopeSortKey(a) == BudgetScopeSortKey(b) <==> ScopeOf(a) == ScopeOf(b)
    ensures forall scope :: AppliesTo(a, scope) <==> scope == ScopeOf(a)
  {
    KeyHasHeading(a);
    KeyHasHeading(b);
    Headed(Heading(ScopeOf(a)), Heading(ScopeOf(b)), NameIn(ScopeOf(a)), NameIn(ScopeOf(b)));
  }

  lemma KeyLeIsOrder(a: SortKey, b: SortKey, c: SortKey)
    ensures KeyLe(a, b) || KeyLe(b, a)
    ensures KeyLe(a, b) && KeyLe(b, a) ==> a == b
    ensures KeyLe(a, b) && KeyLe(b, c) ==> KeyLe(a, c)
  {
    TextLeIsOrder(a.scope, b.scope, c.scope);
    TextLeIsOrder(b.scope, c.scope, a.scope);
    TextLeIsOrder(a.name, b.name, c.name);
  }

  lemma KeysAreOrdered()
    ensures TotalOrder(KeyLe)
  {
    forall a, b
      ensures KeyLe(a, b) || KeyLe(b, a)
      ensures KeyLe(a, b) && KeyLe(b, a) ==> a == b
    {
      KeyLeIsOrder(a, b, a);
    }
    forall a, b, c | KeyLe(a, b) && KeyLe(b, c)
      ensures KeyLe(a, c)
    {
      KeyLeIsOrder(a, b, c);
    }
  }

  // ----- what is exported -----

  /** The budgets that have a name and an amount. */
  predicate Complete<A, D>(item: BudgetItem<A, D>) { item.name.Some? && item.amount.Some? }

  function CompleteOnes<A, D>(items: seq<BudgetItem<A, D>>): (r: seq<BudgetItem<A, D>>) {
    if items == [] then [] else (if Complete(items[0]) then [items[0]] else []) + CompleteOnes(items[1..])
  }

  /** An identifier is shown by its name where that is known, and as it is otherwise. */
  ghost predicate ShownAs(id: Option<string>, shown: Option<string>, names: map<string, string>) {
    && (id.Some? <==> shown.Some?)
    && (id.Some? ==> shown.value == if id.value in names then names[id.value] else id.value)
  }

  /** The specification says of the budget what the service said. */
  ghost predicate Describes<A, D>(spec: BudgetSpec<A, D>, item: BudgetItem<A, D>, maps: ScopeMaps) {
    && item.name == Some(spec.name) && item.amount == Some(spec.amount) && spec.details == item.details
    && ShownAs(item.teamId, spec.team, maps.teams) && ShownAs(item.userId, spec.user, maps.users)
    && ShownAs(item.agentId, spec.agent, maps.agents)
  }

  /** One specification for each budget with a name and an amount, in listed order. */
  lemma {:induction false} SpecsDescribe<A, D>(items: seq<BudgetItem<A, D>>, maps: ScopeMaps)
    ensures |Specs(items, maps)| == |CompleteOnes(items)|
    ensures forall k | 0 <= k < |Specs(items, maps)| :: Describes(Specs(items, maps)[k], CompleteOnes(items)[k], maps)
  {
    if items != [] {
      SpecsDescribe(items[1..], maps);
      var spec := BuildBudgetSpec(items[0], maps);
      assert spec.Some? <==> Complete(items[0]);
      assert spec.Some? ==> Describes(spec.value, items[0], maps);
    }
  }

  lemma {:induction false} CompleteOnesListed<A, D>(items: seq<BudgetItem<A, D>>, item: BudgetItem<A, D>)
    ensures item in CompleteOnes(items) <==> item in items && Complete(item)
  {
    if items != [] {
      CompleteOnesListed(items[1..], item);
      assert item in items <==> item == items[0] || item in items[1..];
    }
  }

  lemma {:induction false} BuiltFromItems<A, D>(items: seq<BudgetItem<A, D>>, maps: ScopeMaps, spec: BudgetSpec<A, D>)
    ensures spec in Specs(items, maps) <==> exists item :: item in items && BuildBudgetSpec(item, maps) == Some(spec)
  {
    if items != [] {
      BuiltFromItems(items[1..], maps, spec);
      if exists item :: item in items && BuildBudgetSpec(item, maps) == Some(spec) {
        var item :| item in items && BuildBudgetSpec(item, maps) == Some(spec);
        assert item == items[0] || item in items[1..];
      }
    }
  }

  /** Agents come first, then the organization, then teams, then users. */
  function Rank(scope: Scope): (n: nat) {
    match scope
    case Agent(_) => 0
    case Organization => 1
    case Team(_) => 2
    case User(_) => 3
  }

  /** Within one kind of scope, names decide. */
  predicate Precedes(a: Scope, b: Scope) {
    if Rank(a) == Rank(b) then !a.Organization? && a.name != b.name && CharsLe(a.name, b.name)
    else Rank(a) < Rank(b)
  }

  /** A budget comes after those of the scopes that precede its own and, within its scope, after smaller names. */
  predicate InOrder<A, D>(a: BudgetSpec<A, D>, b: BudgetSpec<A, D>) {
    if ScopeOf(a) == ScopeOf(b) then CharsLe(a.name, b.name) else Precedes(ScopeOf(a), ScopeOf(b))
  }

  lemma {:induction false} CharsAfter(p: string, x: string, y: string)
    ensures CharsLe(p + x, p + y) == CharsLe(x, y)
  {
    if p == [] {
      assert p + x == x && p + y == y;
    } else {
      assert (p + x)[1..] == p[1..] + x && (p + y)[1..] == p[1..] + y;
      CharsAfter(p[1..], x, y);
    }
  }

  lemma HeadingsAreRanked(a: Scope, b: Scope)
    ensures Heading(a) == Heading(b) <==> Rank(a) == Rank(b)
    ensures Heading(a)[0] < Heading(b)[0] <==> Rank(a) < Rank(b)
  {
  }

  lemma {:induction false} ScopeKeyOrder(a: Scope, b: Scope)
    requires a != b
    ensures CharsLe(Heading(a) + NameIn(a), Heading(b) + NameIn(b)) <==> Precedes(a, b)
  {
    var x, y := NameIn(a), NameIn(b);
    HeadingsAreRanked(a, b);
    HeadingsAreRanked(b, a);
    if Rank(a) == Rank(b) {
      CharsAfter(Heading(a), x, y);
    } else {
      assert (Heading(a) + x)[0] == Heading(a)[0] && (Heading(b) + y)[0] == Heading(b)[0];
    }
  }

  /** Keys compare as scopes and names do. */
  lemma {:induction false} KeyOrderIsScopeOrder<A, D>(a: BudgetSpec<A, D>, b: BudgetSpec<A, D>)
    ensures KeyLe(KeyOf(a), KeyOf(b)) <==> InOrder(a, b)
  {
    SortKeyIdentifiesScope(a, b);
    if ScopeOf(a) == ScopeOf(b) {
      TextOrderIsCharacterOrder(a.name, b.name);
    } else {
      KeyHasHeading(a);
      KeyHasHeading(b);
      TextOrderIsCharacterOrder(BudgetScopeSortKey(a), BudgetScopeSortKey(b));
      ScopeKeyOrder(ScopeOf(a), ScopeOf(b));
    }
  }

  lemma {:induction false} EachIsDescribed<A, D>(items: seq<BudgetItem<A, D>>, maps: ScopeMaps, spec: BudgetSpec<A, D>)
    requires spec in Specs(items, maps)
    ensures exists item :: item in items && Describes(spec, item, maps)
  {
    SpecsDescribe(items, maps);
    var k :| 0 <= k < |Specs(items, maps)| && Specs(items, maps)[k] == spec;
    var item := CompleteOnes(items)[k];
    CompleteOnesListed(items, item);
    assert item in items && Describes(spec, item, maps);
  }

  lemma {:induction false} EachIsBuilt<A, D>(items: seq<BudgetItem<A, D>>, maps: ScopeMaps, item: BudgetItem<A, D>)
    requires item in items && Complete(item)
    ensures exists spec :: spec in Specs(items, maps) && Describes(spec, item, maps)
  {
    SpecsDescribe(items, maps);
    CompleteOnesListed(items, item);
    var k :| 0 <= k < |CompleteOnes(items)| && CompleteOnes(items)[k] == item;
    assert Specs(items, maps)[k] in Specs(items, maps) && Describes(Specs(items, maps)[k], item, maps);
  }

  /**
   The export describes exactly the budgets that have a name and an amount: each of its entries describes a
   listed one, each listed one is described, and there are as many entries as such budgets.
   */
  lemma {:induction false} ExportIsComplete<A, D>(items: seq<BudgetItem<A, D>>, maps: ScopeMaps)
    ensures var r := ExportBudgets(items, maps);
            && |r| == |CompleteOnes(items)|
            && (forall spec | spec in r :: exists item :: item in items && Describes(spec, item, maps))
            && (forall item | item in items && Complete(item) ::
                  exists spec :: spec in r && Describes(spec, item, maps))
  {
    var specs, r := Specs(items, maps), ExportBudgets(items, maps);
    KeysAreOrdered();
    SortIsStable(KeyOf<A, D>, KeyLe, specs);
    SameLength(r, specs);
    SpecsDescribe(items, maps);
    forall spec | spec in r ensures exists item :: item in items && Describes(spec, item, maps) {
      assert spec in multiset(r);
      EachIsDescribed(items, maps, spec);
    }
    forall item | item in items && Complete(item) ensures exists spec :: spec in r && Describes(spec, item, maps) {
      EachIsBuilt(items, maps, item);
      var spec :| spec in specs && Describes(spec, item, maps);
      assert spec in multiset(specs);
      assert spec in r;
    }
  }

  /**
   The export is ordered by scope and then name in character order; it describes exactly the budgets that
   have a name and an amount, as often as they were listed; budgets of the same scope and name stay in
   listed order. Whatever sorts the built specifications stably gives this export.
   */
  lemma ExportIsOrderedAndComplete<A, D>(items: seq<BudgetItem<A, D>>, maps: ScopeMaps)
    ensures var r := ExportBudgets(items, maps);
            && |r| == |CompleteOnes(items)| && multiset(r) == multiset(Specs(items, maps))
            && (forall spec | spec in r :: exists item :: item in items && Describes(spec, item, maps))
            && (forall item | item in items && Complete(item) ::
                  exists spec :: spec in r && Describes(spec, item, maps))
            && (forall i, j | 0 <= i < j < |r| :: InOrder(r[i], r[j]))
            && StablySorted(KeyOf<A, D>, KeyLe, Specs(items, maps), r)
            && (forall t | StablySorted(KeyOf<A, D>, KeyLe, Specs(items, maps), t) :: t == r)
  {
    ExportIsComplete(items, maps);
    ExportIsOrdered(items, maps);
  }

  lemma ExportIsOrdered<A, D>(items: seq<BudgetItem<A, D>>, maps: ScopeMaps)
    ensures var r := ExportBudgets(items, maps);
            && multiset(r) == multiset(Specs(items, maps))
            && (forall i, j | 0 <= i < j < |r| :: InOrder(r[i], r[j]))
            && StablySorted(KeyOf<A, D>, KeyLe, Specs(items, maps), r)
            && (forall t | StablySorted(KeyOf<A, D>, KeyLe, Specs(items, maps), t) :: t == r)
  {
    KeysAreOrdered();
    var specs, r := Specs(items, maps), ExportBudgets(items, maps);
    SortIsStable(KeyOf<A, D>, KeyLe, specs);
    forall i, j | 0 <= i < j < |r| ensures InOrder(r[i], r[j]) {
      KeyOrderIsScopeOrder(r[i], r[j]);
    }
    forall t | StablySorted(KeyOf<A, D>, KeyLe, specs, t)
      ensures t == r
    {
      forall k
        ensures With(KeyOf<A, D>, r, k) == With(KeyOf<A, D>, t, k)
      {
        assert With(KeyOf<A, D>, r, k) == With(KeyOf<A, D>, specs, k) == With(KeyOf<A, D>, t, k);
      }
      StableSortIsUnique(KeyOf<A, D>, KeyLe, t, r);
    }
  }

  // ----- when the listing order does not show -----

  /** Every listing of the same budgets is exported alike. */
  ghost predicate Canonical<A(!new), D(!new)>(items: seq<BudgetItem<A, D>>, maps: ScopeMaps) {
    forall other: seq<BudgetItem<A, D>> | multiset(other) == multiset(items) ::
      ExportBudgets(other, maps) == ExportBudgets(items, maps)
  }

  /** Budgets of the same scope and name are exported alike. */
  ghost predicate Unambiguous<A, D>(items: seq<BudgetItem<A, D>>, maps: ScopeMaps) {
    forall i, j | 0 <= i < j < |items| ::
      var a, b := BuildBudgetSpec(items[i], maps), BuildBudgetSpec(items[j], maps);
      a.Some? && b.Some? && ScopeOf(a.value) == ScopeOf(b.value) && a.value.name == b.value.name ==> a == b
  }

  lemma {:induction false} SpecsConcat<A, D>(s: seq<BudgetItem<A, D>>, t: seq<BudgetItem<A, D>>, maps: ScopeMaps)
    ensures Specs(s + t, maps) == Specs(s, maps) + Specs(t, maps)
  {
    if s == [] {
      assert s + t == t;
    } else {
      assert (s + t)[1..] == s[1..] + t;
      SpecsConcat(s[1..], t, maps);
    }
  }

  lemma {:induction false} SpecsAround<A, D>(
    a: seq<BudgetItem<A, D>>, x: BudgetItem<A, D>, b: seq<BudgetItem<A, D>>, maps: ScopeMaps)
    ensures Specs(a + [x] + b, maps) == Specs(a, maps) + Specs([x], maps) + Specs(b, maps)
    ensures Specs([x], maps) == if BuildBudgetSpec(x, maps).Some? then [BuildBudgetSpec(x, maps).value] else []
  {
    SpecsConcat(a + [x], b, maps);
    SpecsConcat(a, [x], maps);
    assert [x][1..] == [];
  }

  lemma {:induction false} SpecsOfPermutation<A, D>(s: seq<BudgetItem<A, D>>, t: seq<BudgetItem<A, D>>, maps: ScopeMaps)
    requires multiset(s) == multiset(t)
    ensures multiset(Specs(s, maps)) == multiset(Specs(t, maps))
  {
    SameLength(s, t);
    if s != [] {
      var a, b := Without(s, t);
      SpecsOfPermutation(s[1..], a + b, maps);
      SpecsWithout(a, s[0], b, maps);
      SpecsWithout([], s[0], s[1..], maps);
      assert [] + [s[0]] + s[1..] == s && [] + s[1..] == s[1..];
    }
  }

  /** What a listing and a permutation of it have left once the first budget is taken out. */
  lemma Without<T>(s: seq<T>, t: seq<T>) returns (a: seq<T>, b: seq<T>)
    requires s != [] && multiset(s) == multiset(t)
    ensures t == a + [s[0]] + b && multiset(s[1..]) == multiset(a + b)
  {
    assert s[0] in multiset(s);
    a, b := Around(t, s[0]);
    Remaining(a, s[0], b);
    FirstRemoved(s);
  }

  lemma Around<T>(t: seq<T>, x: T) returns (a: seq<T>, b: seq<T>)
    requires x in multiset(t)
    ensures t == a + [x] + b
  {
    var i :| 0 <= i < |t| && t[i] == x;
    a, b := t[..i], t[i + 1..];
  }

  lemma FirstRemoved<T>(s: seq<T>)
    requires s != []
    ensures multiset(s[1..]) == multiset(s) - multiset{s[0]}
  {
    assert s == [s[0]] + s[1..];
  }

  lemma Remaining<T>(a: seq<T>, x: T, b: seq<T>)
    ensures multiset(a + b) == multiset(a + [x] + b) - multiset{x}
  {
    assert multiset(a + [x] + b) == multiset(a) + multiset{x} + multiset(b);
    assert multiset(a + b) == multiset(a) + multiset(b);
  }

  lemma SpecsWithout<A, D>(a: seq<BudgetItem<A, D>>, x: BudgetItem<A, D>, b: seq<BudgetItem<A, D>>, maps: ScopeMaps)
    ensures multiset(Specs(a + [x] + b, maps)) == multiset(Specs([x], maps)) + multiset(Specs(a + b, maps))
  {
    SpecsConcat(a, b, maps);
    SpecsAround(a, x, b, maps);
  }

  lemma {:induction false} UnambiguousKeys<A, D>(items: seq<BudgetItem<A, D>>, maps: ScopeMaps)
    requires Unambiguous(items, maps)
    ensures KeysIdentify(KeyOf<A, D>, Specs(items, maps))
  {
    forall x, y | x in Specs(items, maps) && y in Specs(items, maps) && KeyOf(x) == KeyOf(y)
      ensures x == y
    {
      BuiltFromItems(items, maps, x);
      BuiltFromItems(items, maps, y);
      SortKeyIdentifiesScope(x, y);
      var i :| 0 <= i < |items| && BuildBudgetSpec(items[i], maps) == Some(x);
      var j :| 0 <= j < |items| && BuildBudgetSpec(items[j], maps) == Some(y);
    }
  }

  /** Exchanging two different budgets of one scope and name shows in the export. */
  lemma {:induction false} ExchangeShows<A, D>(items: seq<BudgetItem<A, D>>, maps: ScopeMaps, i: nat, j: nat)
    returns (other: seq<BudgetItem<A, D>>)
    requires i < j < |items| && BuildBudgetSpec(items[i], maps).Some? && BuildBudgetSpec(items[j], maps).Some?
    requires BuildBudgetSpec(items[i], maps) != BuildBudgetSpec(items[j], maps)
    requires KeyOf(BuildBudgetSpec(items[i], maps).value) == KeyOf(BuildBudgetSpec(items[j], maps).value)
    ensures multiset(other) == multiset(items) && ExportBudgets(other, maps) != ExportBudgets(items, maps)
  {
    var x, y := items[i], items[j];
    var a, b, c := items[..i], items[i + 1..j], items[j + 1..];
    other := a + [y] + (b + [x] + c);
    assert items == a + [x] + (b + [y] + c);
    var sx, sy := BuildBudgetSpec(x, maps).value, BuildBudgetSpec(y, maps).value;
    SpecsAround(a, x, b + [y] + c, maps);
    SpecsAround(a, y, b + [x] + c, maps);
    KeysAreOrdered();
    FirstStaysFirst(KeyOf<A, D>, KeyLe, Specs(a, maps), sx, Specs(b + [y] + c, maps), KeyOf(sx));
    FirstStaysFirst(KeyOf<A, D>, KeyLe, Specs(a, maps), sy, Specs(b + [x] + c, maps), KeyOf(sx));
  }

  /** The listing order does not show exactly when budgets of the same scope and name are exported alike. */
  lemma {:induction false} CanonicalIffUnambiguous<A(!new), D(!new)>(items: seq<BudgetItem<A, D>>, maps: ScopeMaps)
    ensures Canonical(items, maps) <==> Unambiguous(items, maps)
  {
    if Unambiguous(items, maps) {
      UnambiguousKeys(items, maps);
      KeysAreOrdered();
      forall other: seq<BudgetItem<A, D>> | multiset(other) == multiset(items)
        ensures ExportBudgets(other, maps) == ExportBudgets(items, maps)
      {
        SpecsOfPermutation(other, items, maps);
        SortedAlike(Specs(items, maps), Specs(other, maps));
      }
    } else {
      var i, j :| 0 <= i < j < |items|
        && BuildBudgetSpec(items[i], maps).Some? && BuildBudgetSpec(items[j], maps).Some?
        && ScopeOf(BuildBudgetSpec(items[i], maps).value) == ScopeOf(BuildBudgetSpec(items[j], maps).value)
        && BuildBudgetSpec(items[i], maps).value.name == BuildBudgetSpec(items[j], maps).value.name
        && BuildBudgetSpec(items[i], maps) != BuildBudgetSpec(items[j], maps);
      SortKeyIdentifiesScope(BuildBudgetSpec(items[i], maps).value, BuildBudgetSpec(items[j], maps).value);
      var other := ExchangeShows(items, maps, i, j);
    }
  }

  lemma {:induction false} SortedAlike<A, D>(s: seq<BudgetSpec<A, D>>, t: seq<BudgetSpec<A, D>>)
    requires multiset(s) == multiset(t) && KeysIdentify(KeyOf<A, D>, s)
    ensures Sort(KeyOf<A, D>, KeyLe, s) == Sort(KeyOf<A, D>, KeyLe, t)
  {
    KeysAreOrdered();
    SortIsStable(KeyOf<A, D>, KeyLe, s);
    SortIsStable(KeyOf<A, D>, KeyLe, t);
    var u := Sort(KeyOf<A, D>, KeyLe, s);
    forall x, y | x in u && y in u && KeyOf(x) == KeyOf(y)
      ensures x == y
    {
      assert x in multiset(s) && y in multiset(s);
    }
    SortedPermutationsAgree(KeyOf<A, D>, KeyLe, u, Sort(KeyOf<A, D>, KeyLe, t));
  }
}
