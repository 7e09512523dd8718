/** The bootstrap recipe: which components a selection pulls in, and when it cannot be met. */
module Catalog {
  import opened Common

  type Id = string

  datatype Component = Component(id: Id, mandatory: bool, dependencies: seq<Id>)

  /** `order` is the fixed listing; `always` the components every recipe gets. */
  datatype Catalog = Catalog(order: seq<Id>, components: map<Id, Component>, always: seq<Id>)

  /** A missing key reads as an empty component. */
  function Get(c: Catalog, id: Id): Component {
    if id in c.components then c.components[id] else Component("", false, [])
  }

  predicate Distinct(ids: seq<Id>) {
    forall i, j | 0 <= i < j < |ids| :: ids[i] != ids[j]
  }

  predicate DependenciesKnown(c: Catalog, id: Id) {
    forall d | d in Get(c, id).dependencies :: d in c.components
  }

  ghost predicate WellFormed(c: Catalog) {
    && Distinct(c.order) && (forall id :: id in c.order <==> id in c.components)
    && (forall id | id in c.components :: c.components[id].id == id && DependenciesKnown(c, id))
  }

  /** What the startup check of the fixed data looks at: it compares the numbers of names, not the names. */
  ghost predicate PassesCheck(c: Catalog) {
    && Distinct(c.order) && (forall id | id in c.order :: Get(c, id).id == id && DependenciesKnown(c, id))
    && |AsSet(c.order)| == |c.components|
  }

  method ValidateCatalog(c: Catalog) returns (ok: bool)
    ensures ok <==> PassesCheck(c)
  {
    var seen: set<Id> := {};
    for k := 0 to |c.order|
      invariant (forall id :: id in seen <==> id in c.order[..k]) && Distinct(c.order[..k])
      invariant forall id | id in c.order[..k] :: Get(c, id).id == id && DependenciesKnown(c, id)
    {
      var id := c.order[k];
      assert c.order[..k + 1] == c.order[..k] + [id] && id in c.order;
      if id in seen || Get(c, id).id != id {
        assert id in c.order[..k] ==> exists i :: 0 <= i < k && c.order[i] == id;
        return false;
      }
      if exists d :: d in Get(c, id).dependencies && d !in c.components {
        assert !DependenciesKnown(c, id);
        return false;
      }
      seen := seen + {id};
    }
    assert c.order[..|c.order|] == c.order && seen == AsSet(c.order);
    ok := |seen| == |c.components|;
  }

  /** The check accepts every well-formed catalog; one it accepts is well-formed if and only if an empty
      name, when listed, is a component: a missing component reads as one whose id is empty. */
  lemma CheckExact(c: Catalog)
    ensures WellFormed(c) ==> PassesCheck(c)
    ensures PassesCheck(c) ==> (WellFormed(c) <==> ("" in c.order ==> "" in c.components))
  {
    var seen := AsSet(c.order);
    assert |c.components| == |c.components.Keys|;
    if WellFormed(c) {
      assert seen == c.components.Keys;
    }
    if PassesCheck(c) && ("" in c.order ==> "" in c.components) {
      assert seen <= c.components.Keys;
      SubsetSameSize(seen, c.components.Keys);
    }
  }

  /** An accepted catalog that lists none of its components. */
  lemma EmptyNameAccepted()
    ensures var c := Catalog([""], map["gdb" := Component("gdb", false, [])], []);
            PassesCheck(c) && !WellFormed(c)
  {
    var c := Catalog([""], map["gdb" := Component("gdb", false, [])], []);
    assert AsSet(c.order) == {""} && c.components.Keys == {"gdb"};
    assert c.order[0] == "" && "gdb" in c.components && "gdb" !in c.order;
  }

  lemma SubsetSameSize(a: set<Id>, b: set<Id>)
    requires a <= b && |a| == |b|
    ensures a == b
  {
    assert b == a + (b - a) && |b| == |a| + |b - a|;
  }

  // ---------------------------------------------------------------- the least closed selection

  /** The dependencies of every listed member are members. */
  predicate ClosedUnder(c: Catalog, s: set<Id>) {
    forall id, d | id in s && id in c.order && d in Get(c, id).dependencies :: d in s
  }

  /** Contained in every closed selection that has the roots. */
  ghost predicate Needed(c: Catalog, roots: set<Id>, s: set<Id>) {
    forall t | roots <= t && ClosedUnder(c, t) :: s <= t
  }

  /** The least selection that has the roots and all dependencies of its members. */
  ghost predicate Closure(c: Catalog, roots: set<Id>, s: set<Id>) {
    roots <= s && ClosedUnder(c, s) && Needed(c, roots, s)
  }

  function AsSet(ids: seq<Id>): set<Id> {
    set id | id in ids
  }

  /** What the caller asks for: the recipe's components, the ones everybody gets, the added ones,
      without the disabled ones. */
  function Roots(c: Catalog, components: seq<Id>, added: seq<Id>, disabled: seq<Id>): set<Id> {
    AsSet(components) + AsSet(c.always) + AsSet(added) - AsSet(disabled)
  }

  predicate Known(c: Catalog, ids: seq<Id>) {
    forall id | id in ids :: id in c.components
  }

  predicate DisablesMandatory(c: Catalog, disabled: seq<Id>) {
    exists id :: id in disabled && id in c.components && c.components[id].mandatory
  }

  /** The selected components in catalog order. */
  function InOrder(order: seq<Id>, s: set<Id>): seq<Id> {
    if order == [] then []
    else InOrder(order[..|order| - 1], s) + if order[|order| - 1] in s then [order[|order| - 1]] else []
  }

  lemma {:induction false} InOrderHas(order: seq<Id>, s: set<Id>, id: Id)
    ensures id in InOrder(order, s) <==> id in order && id in s
  {
    if order != [] {
      InOrderHas(order[..|order| - 1], s, id);
      assert order == order[..|order| - 1] + [order[|order| - 1]];
    }
  }

  /** One look at one selected component. */
  method AddDependencies(c: Catalog, id: Id, selected: set<Id>, disabled: set<Id>, ghost roots: set<Id>)
      returns (ok: bool, more: set<Id>)
    requires id in selected && id in c.order && DependenciesKnown(c, id)
    requires Needed(c, roots, selected) && selected !! disabled
    ensures selected <= more && Needed(c, roots, more) && more !! disabled
    ensures more <= selected + c.components.Keys
    ensures ok ==> forall d | d in Get(c, id).dependencies :: d in more
    ensures !ok ==> exists d :: d in disabled && Needed(c, roots, {d})
  {
    more := selected;
    var dependencies := Get(c, id).dependencies;
    for k := 0 to |dependencies|
      invariant selected <= more && Needed(c, roots, more) && more !! disabled && more <= selected + c.components.Keys
      invariant forall j | 0 <= j < k :: dependencies[j] in more
    {
      var d := dependencies[k];
      NeededDependency(c, roots, selected, id, d);
      if d in disabled {
        return false, more;
      }
      more := more + {d};
    }
    ok := true;
  }

  lemma NeededDependency(c: Catalog, roots: set<Id>, s: set<Id>, id: Id, d: Id)
    requires Needed(c, roots, s) && id in s && id in c.order && d in Get(c, id).dependencies
    ensures Needed(c, roots, {d})
  {
  }

  /** One pass over the catalog. */
  method Pass(c: Catalog, selected: set<Id>, disabled: set<Id>, ghost roots: set<Id>) returns (ok: bool, more: set<Id>)
    requires PassesCheck(c) && Needed(c, roots, selected) && selected !! disabled
    ensures selected <= more <= selected + c.components.Keys && Needed(c, roots, more) && more !! disabled
    ensures ok && more == selected ==> ClosedUnder(c, selected)
    ensures !ok ==> exists d :: d in disabled && Needed(c, roots, {d})
  {
    more := selected;
    for k := 0 to |c.order|
      invariant selected <= more <= selected + c.components.Keys && Needed(c, roots, more) && more !! disabled
      invariant more == selected ==>
                  forall j, d | 0 <= j < k && c.order[j] in selected && d in Get(c, c.order[j]).dependencies :: d in selected
    {
      var id := c.order[k];
      assert id in c.order;
      if id in more {
        ok, more := AddDependencies(c, id, more, disabled, roots);
        if !ok { return; }
      }
    }
    if more == selected {
      forall id, d | id in selected && id in c.order && d in Get(c, id).dependencies ensures d in selected {
        var j :| 0 <= j < |c.order| && c.order[j] == id;
      }
    }
    ok := true;
  }

  /** Repeats passes until one changes nothing. */
  method Close(c: Catalog, roots: set<Id>, disabled: set<Id>) returns (ok: bool, selected: set<Id>)
    requires PassesCheck(c) && roots !! disabled
    ensures ok ==> Closure(c, roots, selected) && selected !! disabled
    ensures !ok ==> exists d :: d in disabled && Needed(c, roots, {d})
  {
    selected := roots;
    var changed := true;
    while changed
      invariant roots <= selected <= roots + c.components.Keys && Needed(c, roots, selected) && selected !! disabled
      invariant !changed ==> ClosedUnder(c, selected)
      decreases roots + c.components.Keys - selected, changed
    {
      var more;
      ok, more := Pass(c, selected, disabled, roots);
      if !ok { return; }
      changed := more != selected;
      selected := more;
    }
    ok := true;
  }

  /** The result stands for the least closed selection. */
  ghost predicate Resolves(c: Catalog, components: seq<Id>, added: seq<Id>, disabled: seq<Id>, result: seq<Id>) {
    exists s :: Closure(c, Roots(c, components, added, disabled), s) && result == InOrder(c.order, s)
  }

  /** When a recipe can be met. */
  ghost predicate Resolvable(c: Catalog, components: seq<Id>, added: seq<Id>, disabled: seq<Id>) {
    && Known(c, components) && Known(c, added) && Known(c, disabled) && !DisablesMandatory(c, disabled)
    && forall d | d in disabled :: !Needed(c, Roots(c, components, added, disabled), {d})
  }

  /** It succeeds exactly when every name is known, no disabled component is mandatory, and none is
      needed; the result is the least dependency-closed selection, in catalog order. */
  method ResolveRecipe(c: Catalog, components: seq<Id>, added: seq<Id>, disabled: seq<Id>) returns (r: Result<seq<Id>>)
    requires PassesCheck(c)
    ensures r.Ok? ==> Resolves(c, components, added, disabled, r.value)
    ensures r.Ok? <==> Resolvable(c, components, added, disabled)
  {
    if !Known(c, components) || !Known(c, added) || !Known(c, disabled) || DisablesMandatory(c, disabled) {
      return Err;
    }
    var roots := Roots(c, components, added, disabled);
    var ok, selected := Close(c, roots, AsSet(disabled));
    if !ok {
      return Err;
    }
    forall d | d in disabled ensures !Needed(c, roots, {d}) {
      assert d in AsSet(disabled) && d !in selected;
    }
    r := Ok(InOrder(c.order, selected));
  }

  /** What is in the result: of the least closed selection everything that is listed.  In a well-formed
      catalog that is all of it, so everything asked for is there. */
  lemma ResultHolds(c: Catalog, components: seq<Id>, added: seq<Id>, disabled: seq<Id>, result: seq<Id>, s: set<Id>)
    requires PassesCheck(c) && Resolves(c, components, added, disabled, result)
    requires Closure(c, Roots(c, components, added, disabled), s)
    ensures forall id :: id in result <==> id in s && id in c.order
    ensures WellFormed(c) ==> forall id | id in Roots(c, components, added, disabled) && id in c.components :: id in result
  {
    var t :| Closure(c, Roots(c, components, added, disabled), t) && result == InOrder(c.order, t);
    ClosureUnique(c, Roots(c, components, added, disabled), s, t);
    forall id ensures id in result <==> id in s && id in c.order {
      InOrderHas(c.order, s, id);
    }
  }

  lemma ClosureUnique(c: Catalog, roots: set<Id>, s: set<Id>, t: set<Id>)
    requires Closure(c, roots, s) && Closure(c, roots, t)
    ensures s == t
  {
    assert s <= t && t <= s;
  }

  /** Nothing that every recipe gets can be disabled. */
  predicate AlwaysMandatory(c: Catalog) {
    forall id | id in c.always :: id in c.components && c.components[id].mandatory
  }

  /** Resolving a result again succeeds and changes nothing. */
  lemma Idempotent(c: Catalog, components: seq<Id>, added: seq<Id>, disabled: seq<Id>, result: seq<Id>, again: seq<Id>)
    requires PassesCheck(c) && AlwaysMandatory(c) && Resolvable(c, components, added, disabled)
    requires Resolves(c, components, added, disabled, result)
    ensures Resolvable(c, result, [], [])
    ensures Resolves(c, result, [], [], again) ==> again == result
  {
    var roots := Roots(c, components, added, disabled);
    var s :| Closure(c, roots, s) && result == InOrder(c.order, s);
    AgainWithin(c, roots, s, disabled);
    if Resolves(c, result, [], [], again) {
      var t :| Closure(c, Roots(c, result, [], []), t) && again == InOrder(c.order, t);
      forall id | id in c.order ensures id in s <==> id in t {
        InOrderHas(c.order, s, id);
      }
      InOrderSame(c.order, s, t);
    }
  }

  lemma AgainWithin(c: Catalog, roots: set<Id>, s: set<Id>, disabled: seq<Id>)
    requires PassesCheck(c) && AlwaysMandatory(c) && Closure(c, roots, s)
    requires AsSet(c.always) - AsSet(disabled) <= roots <= c.components.Keys && !DisablesMandatory(c, disabled)
    ensures Known(c, InOrder(c.order, s)) && Roots(c, InOrder(c.order, s), [], []) <= s
  {
    assert ClosedUnder(c, c.components.Keys);
    assert s <= c.components.Keys;
    forall id | id in InOrder(c.order, s) ensures id in s {
      InOrderHas(c.order, s, id);
    }
    forall id | id in c.always ensures id in s {
      assert id !in disabled;
    }
  }

  lemma {:induction false} InOrderSame(order: seq<Id>, s: set<Id>, t: set<Id>)
    requires forall id | id in order :: id in s <==> id in t
    ensures InOrder(order, s) == InOrder(order, t)
  {
    if order != [] {
      assert order == order[..|order| - 1] + [order[|order| - 1]];
      InOrderSame(order[..|order| - 1], s, t);
    }
  }

  // ---------------------------------------------------------------- the same, one dependency after another

  /** Each listed component on the way depends on the next. */
  predicate Chain(c: Catalog, p: seq<Id>) {
    forall i | 0 <= i < |p| - 1 :: p[i] in c.order && p[i + 1] in Get(c, p[i]).dependencies
  }

  /** The way leads from something asked for and not disabled to the component. */
  predicate PullsIn(c: Catalog, components: seq<Id>, added: seq<Id>, disabled: seq<Id>, p: seq<Id>, id: Id) {
    && p != [] && p[|p| - 1] == id && Chain(c, p)
    && (p[0] in components || p[0] in added || p[0] in c.always) && p[0] !in disabled
  }

  lemma {:induction false} ChainInside(c: Catalog, p: seq<Id>, t: set<Id>)
    requires p != [] && Chain(c, p) && ClosedUnder(c, t) && p[0] in t
    ensures p[|p| - 1] in t
  {
    if |p| > 1 {
      assert p[1] in t by {
        assert p[0] in c.order && p[0 + 1] in Get(c, p[0]).dependencies;
      }
      ChainInside(c, p[1..], t);
    }
  }

  lemma ChainMore(c: Catalog, p: seq<Id>, d: Id)
    requires p != [] && Chain(c, p) && p[|p| - 1] in c.order && d in Get(c, p[|p| - 1]).dependencies
    ensures Chain(c, p + [d])
  {
  }

  /** Everything some chain leads to, among what can be there at all. */
  ghost function Reached(c: Catalog, components: seq<Id>, added: seq<Id>, disabled: seq<Id>): set<Id> {
    set id | id in Roots(c, components, added, disabled) + c.components.Keys
             && exists p :: PullsIn(c, components, added, disabled, p, id)
  }

  lemma ReachedHolds(c: Catalog, components: seq<Id>, added: seq<Id>, disabled: seq<Id>)
    requires PassesCheck(c)
    ensures Roots(c, components, added, disabled) <= Reached(c, components, added, disabled)
    ensures ClosedUnder(c, Reached(c, components, added, disabled))
  {
    forall id | id in Roots(c, components, added, disabled) ensures id in Reached(c, components, added, disabled) {
      assert PullsIn(c, components, added, disabled, [id], id);
    }
    forall id, d | id in Reached(c, components, added, disabled) && id in c.order && d in Get(c, id).dependencies
      ensures d in Reached(c, components, added, disabled)
    {
      var p :| PullsIn(c, components, added, disabled, p, id);
      ChainMore(c, p, d);
      assert PullsIn(c, components, added, disabled, p + [d], d);
    }
  }

  /** A component is needed exactly when a chain of dependencies leads to it. */
  lemma NeededExact(c: Catalog, components: seq<Id>, added: seq<Id>, disabled: seq<Id>, id: Id)
    requires PassesCheck(c)
    ensures Needed(c, Roots(c, components, added, disabled), {id}) <==>
            exists p :: PullsIn(c, components, added, disabled, p, id)
  {
    var roots := Roots(c, components, added, disabled);
    ReachedHolds(c, components, added, disabled);
    if p :| PullsIn(c, components, added, disabled, p, id) {
      forall t | roots <= t && ClosedUnder(c, t) ensures {id} <= t {
        ChainInside(c, p, t);
      }
    }
    if Needed(c, roots, {id}) {
      assert {id} <= Reached(c, components, added, disabled);
    }
  }

  /** The caller's view of a refusal: an unknown name, a mandatory component among the disabled ones, or a
      chain of dependencies that ends at a disabled one. */
  lemma ResolvableExact(c: Catalog, components: seq<Id>, added: seq<Id>, disabled: seq<Id>)
    requires PassesCheck(c)
    ensures Resolvable(c, components, added, disabled) <==>
            && (forall id | id in components + added + disabled :: id in c.components)
            && (forall id | id in disabled && id in c.components :: !c.components[id].mandatory)
            && (forall id, p | id in disabled :: !PullsIn(c, components, added, disabled, p, id))
  {
    forall id ensures Needed(c, Roots(c, components, added, disabled), {id}) <==>
                      exists p :: PullsIn(c, components, added, disabled, p, id) {
      NeededExact(c, components, added, disabled, id);
    }
  }

  predicate Before(order: seq<Id>, x: Id, y: Id) {
    exists a, b | 0 <= a < b < |order| :: order[a] == x && order[b] == y
  }

  /** One name after the other as the order has them. */
  predicate Follows(order: seq<Id>, r: seq<Id>) {
    forall i, j | 0 <= i < j < |r| :: Before(order, r[i], r[j])
  }

  lemma {:induction false} InOrderIncreasing(order: seq<Id>, s: set<Id>)
    ensures Follows(order, InOrder(order, s))
  {
    if order != [] {
      var front, last := order[..|order| - 1], order[|order| - 1];
      InOrderIncreasing(front, s);
      var r, shorter := InOrder(order, s), InOrder(front, s);
      forall i, j | 0 <= i < j < |r| ensures Before(order, r[i], r[j]) {
        if j < |shorter| {
          assert Before(front, shorter[i], shorter[j]);
          var a, b :| 0 <= a < b < |front| && front[a] == shorter[i] && front[b] == shorter[j];
          assert order[a] == r[i] && order[b] == r[j];
        } else {
          InOrderHas(front, s, shorter[i]);
          assert shorter[i] in front;
          var a :| 0 <= a < |front| && front[a] == shorter[i];
          assert order[a] == r[i] && order[|front|] == r[j];
        }
      }
    }
  }

  /** What the caller gets: exactly the listed components that a chain leads to from something asked for,
      each once, in the fixed order. */
  lemma ResultExact(c: Catalog, components: seq<Id>, added: seq<Id>, disabled: seq<Id>, result: seq<Id>)
    requires PassesCheck(c) && Resolves(c, components, added, disabled, result)
    ensures forall id :: id in result <==> id in c.order && exists p :: PullsIn(c, components, added, disabled, p, id)
    ensures forall i, j | 0 <= i < j < |result| :: result[i] != result[j] && Before(c.order, result[i], result[j])
  {
    var roots := Roots(c, components, added, disabled);
    var s :| Closure(c, roots, s) && result == InOrder(c.order, s);
    forall id ensures id in result <==> id in c.order && exists p :: PullsIn(c, components, added, disabled, p, id) {
      InOrderHas(c.order, s, id);
      NeededExact(c, components, added, disabled, id);
      assert id in s <==> Needed(c, roots, {id});
    }
    InOrderIncreasing(c.order, s);
    assert Follows(c.order, result);
  }
}
