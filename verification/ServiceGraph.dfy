/** Ordering the services of a compose file by their dependencies, and filtering them first. */
module ServiceGraph {
  import opened Ordering

  /** Which services each service depends on. */
  type Graph = map<string, set<string>>

  ghost predicate Edge(g: Graph, a: string, b: string) {
    a in g && b in g[a]
  }

  ghost predicate IsWalk(g: Graph, p: seq<string>) {
    forall i | 0 <= i < |p| - 1 :: Edge(g, p[i], p[i + 1])
  }

  ghost predicate HasCycle(g: Graph) {
    exists p: seq<string> :: |p| >= 2 && p[0] == p[|p| - 1] && IsWalk(g, p)
  }

  ghost predicate Closed(g: Graph) {
    forall a, b | Edge(g, a, b) :: b in g
  }

  ghost predicate Sortable(g: Graph) {
    Closed(g) && !HasCycle(g)
  }

  ghost predicate DepsFirst(g: Graph, out: seq<string>) {
    forall i | 0 <= i < |out| :: out[i] in g && forall d <- g[out[i]] :: d in out[..i]
  }

  /** Every service exactly once, each after everything it depends on. */
  ghost predicate IsOrder(g: Graph, out: seq<string>) {
    NoDuplicates(out) && Elements(out) == g.Keys && DepsFirst(g, out)
  }

  lemma {:induction false} WalkGoesBack(g: Graph, out: seq<string>, p: seq<string>) returns (first: nat, last: nat)
    requires IsOrder(g, out) && p != [] && IsWalk(g, p) && p[0] in g
    ensures first < |out| && out[first] == p[0] && last < |out| && out[last] == p[|p| - 1]
    ensures last <= first && (|p| >= 2 ==> last < first)
    decreases |p|
  {
    assert p[0] in Elements(out);
    first :| 0 <= first < |out| && out[first] == p[0];
    last := first;
    if |p| >= 2 {
      assert Edge(g, p[0], p[1]) && p[1] in out[..first];
      var q := p[1..];
      forall i | 0 <= i < |q| - 1 ensures Edge(g, q[i], q[i + 1]) {
        assert Edge(g, p[i + 1], p[i + 2]);
      }
      var k :| 0 <= k < first && out[k] == p[1];
      var next, end := WalkGoesBack(g, out, q);
      assert next == k;
      last := end;
    }
  }

  /** An order exists only for a closed graph without cycles. */
  lemma {:induction false} OrderImpliesSortable(g: Graph, out: seq<string>)
    requires IsOrder(g, out)
    ensures Sortable(g)
  {
    forall a, b | Edge(g, a, b) ensures b in g {
      assert a in Elements(out);
      var i :| 0 <= i < |out| && out[i] == a;
      assert b in out[..i];
      assert b in Elements(out);
    }
    forall p: seq<string> | |p| >= 2 && p[0] == p[|p| - 1] && IsWalk(g, p) ensures false {
      assert Edge(g, p[0], p[1]);
      var first, last := WalkGoesBack(g, out, p);
    }
  }

  // ---- The depth-first sort ----

  datatype SortError = Circular(name: string) | Unknown(name: string)
  datatype Sorted = Ordered(names: seq<string>) | Failed(error: SortError)
  datatype Visited = Fine | Bad(error: SortError)

  /** What an error says of the graph. */
  ghost predicate Justified(g: Graph, e: SortError) {
    match e
    case Circular(name) => exists p: seq<string> :: |p| >= 2 && p[0] == name == p[|p| - 1] && IsWalk(g, p)
    case Unknown(name) => name !in g && exists a :: Edge(g, a, name)
  }

  ghost function Deps(specs: map<string, seq<string>>): Graph {
    map n | n in specs :: Elements(specs[n])
  }

  /** `visited` is 1 for the services in progress, 2 for those emitted. */
  ghost predicate Consistent(g: Graph, visited: map<string, int>, result: seq<string>, stack: seq<string>) {
    && (forall n <- visited.Keys :: visited[n] == 1 || visited[n] == 2)
    && (forall n :: n in result <==> n in visited && visited[n] == 2)
    && (forall n :: n in stack <==> n in visited && visited[n] == 1)
    && NoDuplicates(result) && DepsFirst(g, result)
    && IsWalk(g, stack) && (forall n <- stack :: n in g)
  }

  lemma {:induction false} Entered(g: Graph, visited: map<string, int>, result: seq<string>, stack: seq<string>,
      name: string)
    requires Consistent(g, visited, result, stack) && name in g && name !in visited
    requires stack != [] ==> Edge(g, stack[|stack| - 1], name)
    ensures Consistent(g, visited[name := 1], result, stack + [name])
  {
    PushWalk(g, stack, name);
  }

  lemma {:induction false} Emitted(g: Graph, visited: map<string, int>, result: seq<string>, stack: seq<string>,
      name: string)
    requires Consistent(g, visited, result, stack + [name]) && name !in stack
    requires name in g && forall d <- g[name] :: d in result
    ensures Consistent(g, visited[name := 2], result + [name], stack)
  {
    var out := result + [name];
    assert name in stack + [name];
    assert name !in result;
    ElementsAppend(result, name);
    forall i | 0 <= i < |out| ensures out[i] in g && forall d <- g[out[i]] :: d in out[..i] {
      assert out[..i] == result[..i];
      assert result[..|result|] == result;
    }
    forall n ensures n in stack <==> n in visited[name := 2] && visited[name := 2][n] == 1 {
      assert n in stack + [name] <==> n in stack || n == name;
    }
    PopWalk(g, stack, name);
    forall n <- stack ensures n in g {
      assert n in stack + [name];
    }
  }

  class TopoSorter {
    const specs: map<string, seq<string>>
    var visited: map<string, int>
    var result: seq<string>
    /** The services in progress, each depending on the next. */
    ghost var stack: seq<string>

    ghost predicate Valid()
      reads this
    {
      Consistent(Deps(specs), visited, result, stack)
    }

    ghost function Unseen(): set<string>
      reads this
    {
      specs.Keys - visited.Keys
    }

    constructor (specs: map<string, seq<string>>)
      ensures this.specs == specs && Valid() && stack == [] && result == [] && visited == map[]
    {
      this.specs, visited, result, stack := specs, map[], [], [];
    }

    /** Emit everything `name` depends on and then `name`; an error names a real loop or a real dangling dependency. */
    method Visit(name: string) returns (r: Visited)
      requires Valid()
      requires stack == [] ==> name in specs
      requires stack != [] ==> Edge(Deps(specs), stack[|stack| - 1], name)
      modifies this
      ensures r.Bad? ==> Justified(Deps(specs), r.error)
      ensures r.Fine? ==> Valid() && stack == old(stack) && old(result) <= result && name in result
      ensures r.Fine? ==> old(visited.Keys) <= visited.Keys
      decreases Unseen(), name !in visited
    {
      ghost var g := Deps(specs);
      if name in visited {
        if visited[name] == 2 {
          return Fine;
        }
        SeenAgain(g, visited, result, stack, name);
        return Bad(Circular(name));
      }
      if name !in specs {
        visited := visited[name := 1];
        Dangling(g, stack, name);
        return Bad(Unknown(name));
      }
      ghost var outer, before := stack, visited.Keys;
      Entered(g, visited, result, stack, name);
      visited := visited[name := 1];
      stack := stack + [name];
      var deps := specs[name];
      for i := 0 to |deps|
        invariant Valid() && stack == outer + [name]
        invariant old(result) <= result && old(visited.Keys) + {name} <= visited.Keys
        invariant forall j | 0 <= j < i :: deps[j] in result
      {
        assert Edge(g, name, deps[i]);
        FewerUnseen(specs.Keys, before, visited.Keys, name);
        var inner := Visit(deps[i]);
        if inner.Bad? {
          return inner;
        }
      }
      Emitted(g, visited, result, outer, name);
      visited := visited[name := 2];
      result := result + [name];
      stack := outer;
      r := Fine;
    }
  }

  lemma {:induction false} SeenAgain(g: Graph, visited: map<string, int>, result: seq<string>, stack: seq<string>,
      name: string)
    requires Consistent(g, visited, result, stack) && name in visited && visited[name] == 1
    requires stack != [] ==> Edge(g, stack[|stack| - 1], name)
    ensures Justified(g, Circular(name))
  {
    var i :| 0 <= i < |stack| && stack[i] == name;
    CycleFromStack(g, stack, i, name);
  }

  lemma {:induction false} Dangling(g: Graph, stack: seq<string>, name: string)
    requires name !in g && stack != [] && Edge(g, stack[|stack| - 1], name)
    ensures Justified(g, Unknown(name))
  {
  }

  lemma {:induction false} FewerUnseen(all: set<string>, before: set<string>, after: set<string>, name: string)
    requires name in all && name !in before && before + {name} <= after
    ensures all - after < all - before
  {
    assert name in all - before && name !in all - after;
  }

  lemma {:induction false} PushWalk(g: Graph, stack: seq<string>, name: string)
    requires IsWalk(g, stack) && (stack != [] ==> Edge(g, stack[|stack| - 1], name))
    ensures IsWalk(g, stack + [name])
  {
  }

  lemma {:induction false} PopWalk(g: Graph, stack: seq<string>, name: string)
    requires IsWalk(g, stack + [name])
    ensures IsWalk(g, stack)
  {
    forall i | 0 <= i < |stack| - 1 ensures Edge(g, stack[i], stack[i + 1]) {
      assert Edge(g, (stack + [name])[i], (stack + [name])[i + 1]);
    }
  }

  lemma {:induction false} CycleFromStack(g: Graph, stack: seq<string>, i: nat, name: string)
    requires i < |stack| && stack[i] == name && IsWalk(g, stack) && Edge(g, stack[|stack| - 1], name)
    ensures Justified(g, Circular(name))
  {
    var p := stack[i..] + [name];
    forall k | 0 <= k < |p| - 1 ensures Edge(g, p[k], p[k + 1]) {
      if k < |p| - 2 {
        assert Edge(g, stack[i + k], stack[i + k + 1]);
      }
    }
    assert IsWalk(g, p);
  }

  lemma {:induction false} AllEmitted(g: Graph, visited: map<string, int>, result: seq<string>, names: seq<string>)
    requires Consistent(g, visited, result, [])
    requires Elements(names) == g.Keys && forall j | 0 <= j < |names| :: names[j] in result
    ensures IsOrder(g, result)
  {
    forall n ensures n in Elements(result) <==> n in g.Keys {
      if n in result {
        var i :| 0 <= i < |result| && result[i] == n;
        assert result[i] in g;
      }
      if n in g {
        assert n in Elements(names);
      }
    }
  }

  /** The sort succeeds exactly for a closed graph without cycles, and then yields an order. */
  method TopoSort(specs: map<string, seq<string>>) returns (r: Sorted)
    ensures r.Ordered? <==> Sortable(Deps(specs))
    ensures r.Ordered? ==> IsOrder(Deps(specs), r.names)
    ensures r.Failed? ==> Justified(Deps(specs), r.error)
  {
    var names := SortNames(specs.Keys);
    var sorter := new TopoSorter(specs);
    for i := 0 to |names|
      invariant sorter.Valid() && sorter.stack == [] && sorter.specs == specs
      invariant forall j | 0 <= j < i :: names[j] in sorter.result
    {
      assert names[i] in Elements(names);
      var v := sorter.Visit(names[i]);
      if v.Bad? {
        return Failed(v.error);
      }
    }
    AllEmitted(Deps(specs), sorter.visited, sorter.result, names);
    OrderImpliesSortable(Deps(specs), sorter.result);
    r := Ordered(sorter.result);
  }

  // ---- depends_on in its several forms ----

  datatype Item = Name(s: string) | NotAString

  datatype DependsOn = Absent | DepList(items: seq<Item>) | DepMap(keys: set<string>) | OtherForm

  function NamesIn(items: seq<Item>): seq<string>
    decreases |items|
  {
    if items == [] then [] else
    var last := items[|items| - 1];
    NamesIn(items[..|items| - 1]) + if last.Name? then [last.s] else []
  }

  ghost function DepNames(d: DependsOn): set<string> {
    match d
    case DepList(items) => Elements(NamesIn(items))
    case DepMap(keys) => keys
    case _ => {}
  }

  method ParseDependsOn(d: DependsOn) returns (out: seq<string>)
    ensures Elements(out) == DepNames(d)
    ensures d.DepList? ==> out == NamesIn(d.items)
    ensures d.DepMap? ==> Ascending(StringLess, out)
  {
    out := [];
    match d
    case DepList(items) =>
      for i := 0 to |items|
        invariant out == NamesIn(items[..i])
      {
        assert items[..i + 1][..i] == items[..i];
        if items[i].Name? {
          out := out + [items[i].s];
        }
      }
      assert items[..|items|] == items;
    case DepMap(keys) => out := SortNames(keys);
    case _ =>
  }

  function KeepItems(items: seq<Item>, keep: set<string>): seq<Item>
    decreases |items|
  {
    if items == [] then [] else
    var last := items[|items| - 1];
    KeepItems(items[..|items| - 1], keep) + if last.Name? && last.s in keep then [last] else []
  }

  /** References to services that are not kept go; a form left empty becomes absent. */
  function FilteredDependsOn(d: DependsOn, keep: set<string>): DependsOn {
    match d
    case DepList(items) =>
      var out := KeepItems(items, keep);
      if out == [] then Absent else DepList(out)
    case DepMap(keys) => if keys * keep == {} then Absent else DepMap(keys * keep)
    case _ => d
  }

  lemma {:induction false} KeptNames(items: seq<Item>, keep: set<string>)
    ensures Elements(NamesIn(KeepItems(items, keep))) == Elements(NamesIn(items)) * keep
    decreases |items|
  {
    if items != [] {
      var front, last := items[..|items| - 1], items[|items| - 1];
      KeptNames(front, keep);
      var kept := KeepItems(front, keep);
      if last.Name? && last.s in keep {
        assert (kept + [last])[..|kept|] == kept;
        assert NamesIn(kept + [last]) == NamesIn(kept) + [last.s];
        ElementsAppend(NamesIn(kept), last.s);
        ElementsAppend(NamesIn(front), last.s);
      } else {
        assert kept + [] == kept;
        if last.Name? {
          ElementsAppend(NamesIn(front), last.s);
        } else {
          assert NamesIn(front) + [] == NamesIn(front);
        }
      }
    }
  }

  /** Filtering the form is filtering the names. */
  lemma {:induction false} FilteredNames(d: DependsOn, keep: set<string>)
    ensures DepNames(FilteredDependsOn(d, keep)) == DepNames(d) * keep
  {
    if d.DepList? {
      KeptNames(d.items, keep);
      assert KeepItems(d.items, keep) == [] ==> NamesIn(KeepItems(d.items, keep)) == [];
    }
  }

  // ---- Filtering the services ----

  type Services = map<string, DependsOn>

  ghost function GraphOf(services: Services): Graph {
    map n | n in services :: DepNames(services[n])
  }

  function FilterServices(services: Services, keep: set<string>): Services {
    map n | n in services && n in keep :: FilteredDependsOn(services[n], keep)
  }

  /** Dropping services, together with the references to them, never breaks a sortable file. */
  lemma {:induction false} FilterKeepsSortable(services: Services, keep: set<string>)
    ensures Sortable(GraphOf(services)) ==> Sortable(GraphOf(FilterServices(services, keep)))
    ensures GraphOf(FilterServices(services, keep)).Keys == services.Keys * keep
  {
    var g, f := GraphOf(services), GraphOf(FilterServices(services, keep));
    forall a, b | Edge(f, a, b) ensures Edge(g, a, b) && b in keep {
      FilteredNames(services[a], keep);
      assert Edge(g, a, b);
    }
    forall p: seq<string> | IsWalk(f, p) ensures IsWalk(g, p) {
      forall i | 0 <= i < |p| - 1 ensures Edge(g, p[i], p[i + 1]) {
        assert Edge(f, p[i], p[i + 1]);
      }
    }
  }

  datatype StackPlan = NoneMatched | Planned(names: seq<string>) | Rejected(error: SortError)

  /** The stack endpoint: filter to the selected services if any were named, then order what is left. */
  method PlanStack(services: Services, selected: seq<string>) returns (r: StackPlan)
    ensures var left := if selected == [] then services else FilterServices(services, Elements(selected));
            && (r.NoneMatched? <==> selected != [] && left == map[])
            && (r.Planned? ==> IsOrder(GraphOf(left), r.names))
            && (r.Rejected? ==> !Sortable(GraphOf(left)))
    ensures Sortable(GraphOf(services)) && !r.NoneMatched? ==>
              && r.Planned?
              && Elements(r.names) == if selected == [] then services.Keys else services.Keys * Elements(selected)
  {
    var left := services;
    if |selected| > 0 {
      var keep: set<string> := set s | s in selected;
      left := Prune(services, keep);
      assert Elements(selected) == keep;
      FilterKeepsSortable(services, keep);
      if left == map[] {
        return NoneMatched;
      }
    }
    var specs := ParseAll(left);
    assert Deps(specs) == GraphOf(left);
    var sorted := TopoSort(specs);
    match sorted
    case Ordered(names) => r := Planned(names);
    case Failed(e) => r := Rejected(e);
  }

  method Prune(services: Services, keep: set<string>) returns (left: Services)
    ensures left == FilterServices(services, keep)
  {
    left := services;
    var rest := services.Keys;
    while rest != {}
      invariant rest <= services.Keys
      invariant left == map n | n in services && (n in keep || n in rest) :: services[n]
      decreases rest
    {
      var n :| n in rest;
      rest := rest - {n};
      if n !in keep {
        left := left - {n};
      }
    }
    rest := left.Keys;
    while rest != {}
      invariant rest <= left.Keys && left.Keys == services.Keys * keep
      invariant forall n <- left.Keys :: left[n] == if n in rest then services[n]
                  else FilteredDependsOn(services[n], keep)
      decreases rest
    {
      var n :| n in rest;
      rest := rest - {n};
      left := left[n := FilteredDependsOn(left[n], keep)];
    }
  }

  method ParseAll(services: Services) returns (specs: map<string, seq<string>>)
    ensures specs.Keys == services.Keys
    ensures forall n <- services.Keys :: Elements(specs[n]) == DepNames(services[n])
  {
    specs := map[];
    var rest := services.Keys;
    while rest != {}
      invariant rest <= services.Keys && specs.Keys == services.Keys - rest
      invariant forall n <- specs.Keys :: Elements(specs[n]) == DepNames(services[n])
      decreases rest
    {
      var n :| n in rest;
      rest := rest - {n};
      var names := ParseDependsOn(services[n]);
      specs := specs[n := names];
    }
  }
}
