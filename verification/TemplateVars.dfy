/** Generating the declared template variables, each after the one that signs it, and substituting them. */
module TemplateVars {
  import opened Options
  import opened Ordering
  import opened ServiceGraph
  import opened TemplateText

  datatype VarSpec = VarSpec(generate: string, length: int, claims: string, signWith: string)

  type Specs = map<string, VarSpec>

  /** The signing variable, when it is declared too. */
  function SignerOf(specs: Specs, name: string): Option<string>
    requires name in specs
  {
    var dep := specs[name].signWith;
    if dep != "" && dep in specs then Some(dep) else None
  }

  ghost function SignGraph(specs: Specs): Graph {
    map n | n in specs :: var d := SignerOf(specs, n); if d.Some? then {d.value} else {}
  }

  /** The two sets as the marks of a depth-first sort. */
  ghost function Marks(visited: set<string>, onStack: set<string>): map<string, int> {
    map n | n in visited + onStack :: if n in onStack then 1 else 2
  }

  lemma {:induction false} MarkEntered(g: Graph, visited: set<string>, onStack: set<string>, order: seq<string>,
      stack: seq<string>, name: string)
    requires Consistent(g, Marks(visited, onStack), order, stack) && name in g && name !in visited + onStack
    requires stack != [] ==> Edge(g, stack[|stack| - 1], name)
    ensures Consistent(g, Marks(visited, onStack + {name}), order, stack + [name])
  {
    Entered(g, Marks(visited, onStack), order, stack, name);
    assert Marks(visited, onStack + {name}) == Marks(visited, onStack)[name := 1];
  }

  lemma {:induction false} MarkEmitted(g: Graph, visited: set<string>, onStack: set<string>, order: seq<string>,
      stack: seq<string>, name: string)
    requires Consistent(g, Marks(visited, onStack), order, stack + [name]) && name !in stack
    requires name in g && forall d <- g[name] :: d in order
    ensures Consistent(g, Marks(visited + {name}, onStack - {name}), order + [name], stack)
  {
    Emitted(g, Marks(visited, onStack), order, stack, name);
    assert name in stack + [name];
    assert Marks(visited + {name}, onStack - {name}) == Marks(visited, onStack)[name := 2];
  }

  lemma {:induction false} MarkMeaning(g: Graph, visited: set<string>, onStack: set<string>, order: seq<string>,
      stack: seq<string>, name: string)
    requires Consistent(g, Marks(visited, onStack), order, stack)
    ensures name in onStack <==> name in stack
    ensures name in visited - onStack <==> name in order
  {
    assert name in visited + onStack <==> name in Marks(visited, onStack);
  }

  lemma {:induction false} OnStackAgain(g: Graph, stack: seq<string>, name: string)
    requires ServiceGraph.IsWalk(g, stack) && name in stack && (stack != [] ==> Edge(g, stack[|stack| - 1], name))
    ensures Justified(g, Circular(name))
  {
    var i :| 0 <= i < |stack| && stack[i] == name;
    CycleFromStack(g, stack, i, name);
  }

  /** Every declared variable once, each after the one that signs it. */
  class VarSorter {
    const specs: Specs
    var visited: set<string>
    var onStack: set<string>
    var order: seq<string>
    ghost var stack: seq<string>

    ghost predicate Valid()
      reads this
    {
      visited !! onStack && Consistent(SignGraph(specs), Marks(visited, onStack), order, stack)
    }

    ghost function Unseen(): set<string>
      reads this
    {
      specs.Keys - (visited + onStack)
    }

    constructor (specs: Specs)
      ensures this.specs == specs && Valid() && stack == [] && order == []
    {
      this.specs, visited, onStack, order, stack := specs, {}, {}, [], [];
    }

    method Visit(name: string) returns (circular: Option<string>)
      requires Valid() && name in specs
      requires stack != [] ==> Edge(SignGraph(specs), stack[|stack| - 1], name)
      modifies this
      ensures circular.Some? ==> Justified(SignGraph(specs), Circular(circular.value))
      ensures circular.None? ==> Valid() && stack == old(stack) && old(order) <= order && name in order
      decreases Unseen(), name !in visited + onStack
    {
      ghost var g := SignGraph(specs);
      MarkMeaning(g, visited, onStack, order, stack, name);
      if name in onStack {
        OnStackAgain(g, stack, name);
        return Some(name);
      }
      if name in visited {
        return None;
      }
      ghost var outer := stack;
      MarkEntered(g, visited, onStack, order, stack, name);
      onStack := onStack + {name};
      stack := stack + [name];
      var dep := SignerOf(specs, name);
      if dep.Some? {
        assert Edge(g, name, dep.value);
        FewerUnseen(specs.Keys, old(visited + onStack), visited + onStack, name);
        circular := Visit(dep.value);
        if circular.Some? {
          return;
        }
      }
      MarkEmitted(g, visited, onStack, order, outer, name);
      onStack := onStack - {name};
      visited := visited + {name};
      order := order + [name];
      stack := outer;
      circular := None;
    }
  }

  datatype VarError =
    | CircularVars(name: string)
    | UnknownGenerator(name: string)
    | NoSigner(name: string)
    | Unresolved(name: string)
    | EntropyFailed(name: string)
    | SigningFailed(name: string)

  datatype VarOrder = VarsOrdered(names: seq<string>) | VarsLoop(name: string)

  /** Under any order of the map the sort fails exactly when a chain of signers loops. */
  method TopoSortVars(specs: Specs) returns (r: VarOrder)
    ensures r.VarsOrdered? <==> !HasCycle(SignGraph(specs))
    ensures r.VarsOrdered? ==> IsOrder(SignGraph(specs), r.names)
    ensures r.VarsLoop? ==> Justified(SignGraph(specs), Circular(r.name))
  {
    var sorter := new VarSorter(specs);
    var rest := specs.Keys;
    ghost var done: seq<string> := [];
    while rest != {}
      invariant sorter.Valid() && sorter.stack == [] && sorter.specs == specs
      invariant rest <= specs.Keys && Elements(done) == specs.Keys - rest
      invariant forall j | 0 <= j < |done| :: done[j] in sorter.order
      decreases rest
    {
      var name :| name in rest;
      rest := rest - {name};
      var circular := sorter.Visit(name);
      if circular.Some? {
        return VarsLoop(circular.value);
      }
      ElementsAppend(done, name);
      done := done + [name];
    }
    AllEmitted(SignGraph(specs), Marks(sorter.visited, sorter.onStack), sorter.order, done);
    OrderImpliesSortable(SignGraph(specs), sorter.order);
    r := VarsOrdered(sorter.order);
  }

  // ---- Generating ----

  const DEFAULT_LENGTH := 32

  /** What a variable's declaration must say for its generator to be tried at all. */
  predicate Generable(specs: Specs, given: set<string>, name: string)
    requires name in specs
  {
    var s := specs[name];
    || s.generate == "hex" || s.generate == ""
    || (s.generate == "jwt" && s.signWith != "" && (s.signWith in specs || s.signWith in given))
  }

  function HexLength(s: VarSpec): nat {
    if s.length <= 0 then DEFAULT_LENGTH else s.length
  }

  /** What a generated value is: a hex string of the declared length, or the claims signed with the signer's value. */
  ghost predicate GeneratedAs(s: VarSpec, vars: Vars, sign: (string, string) -> Option<string>, value: string) {
    if s.generate == "jwt" then s.signWith in vars && sign(s.claims, vars[s.signWith]) == Some(value)
    else |value| == HexLength(s) && forall c <- value :: IsHexDigit(c)
  }

  datatype Generated = Value(value: string) | Error(error: VarError)

  class Substituter {
    /** The JWT library at a moment: claims and secret to a token. */
    const sign: (string, string) -> Option<string>
    var vars: Vars
    /** The bytes the entropy source has left to give. */
    var entropy: seq<Byte>

    constructor (sign: (string, string) -> Option<string>, vars: Vars, entropy: seq<Byte>)
      ensures this.sign == sign && this.vars == vars && this.entropy == entropy
    {
      this.sign, this.vars, this.entropy := sign, vars, entropy;
    }

    method GenerateHex(length: nat) returns (r: Option<string>)
      modifies this`entropy
      ensures r == HexFrom(old(entropy), length)
      ensures r.Some? ==> entropy == old(entropy)[(length + 1) / 2..]
    {
      r := HexFrom(entropy, length);
      entropy := if r.Some? then entropy[(length + 1) / 2..] else [];
    }

    method GenerateVar(name: string, spec: VarSpec) returns (r: Generated)
      modifies this`entropy
      ensures r.Value? ==> GeneratedAs(spec, vars, sign, r.value)
      ensures r.Value? ==> spec.generate in {"hex", "", "jwt"} && (spec.generate == "jwt" ==> spec.signWith != "")
      ensures r.Error? ==> match r.error
                           case UnknownGenerator(n) => n == name && spec.generate !in {"hex", "", "jwt"}
                           case NoSigner(n) => n == name && spec.generate == "jwt" && spec.signWith == ""
                           case Unresolved(n) => n == name && spec.generate == "jwt" && spec.signWith != "" &&
                               spec.signWith !in vars
                           case EntropyFailed(n) => n == name && |old(entropy)| < (HexLength(spec) + 1) / 2
                           case SigningFailed(n) => n == name && spec.generate == "jwt" && spec.signWith in vars &&
                               sign(spec.claims, vars[spec.signWith]).None?
                           case CircularVars(_) => false
    {
      if spec.generate == "hex" || spec.generate == "" {
        var n := spec.length;
        if n <= 0 {
          n := DEFAULT_LENGTH;
        }
        var hex := GenerateHex(n);
        return if hex.Some? then Value(hex.value) else Error(EntropyFailed(name));
      } else if spec.generate == "jwt" {
        if spec.signWith == "" {
          return Error(NoSigner(name));
        }
        if spec.signWith !in vars {
          return Error(Unresolved(name));
        }
        var token := sign(spec.claims, vars[spec.signWith]);
        return if token.Some? then Value(token.value) else Error(SigningFailed(name));
      } else {
        return Error(UnknownGenerator(name));
      }
    }

    /** Provided variables are never overwritten, whatever happens; on success every declared one has a value made
        the way its declaration says; and the error kinds are exactly those the declarations and the sources explain. */
    method ResolveVarSpecs(specs: Specs) returns (error: Option<VarError>)
      modifies this
      ensures forall k <- old(vars).Keys :: k in vars && vars[k] == old(vars)[k]
      ensures error.None? ==> ResolvedBy(specs, old(vars), vars, sign)
      ensures (error.Some? && error.value.CircularVars?) <==> HasCycle(SignGraph(specs))
      ensures error.None? ==> Satisfiable(specs, old(vars).Keys)
      ensures Satisfiable(specs, old(vars).Keys) && error.Some? ==>
                error.value.EntropyFailed? || error.value.SigningFailed?
    {
      if specs == map[] {
        NoCycleWithoutVars(specs);
        return None;
      }
      var sorted := TopoSortVars(specs);
      if sorted.VarsLoop? {
        return Some(CircularVars(sorted.name));
      }
      ghost var given := vars;
      var order := sorted.names;
      for i := 0 to |order|
        invariant Progress(specs, given, vars, sign, order[..i])
      {
        var name := order[i];
        ResolveStep(specs, given, vars, sign, order, i);
        if name !in vars {
          var v := GenerateVar(name, specs[name]);
          if v.Error? {
            Ungenerable(specs, given.Keys, name);
            return Some(v.error);
          }
          ResolveNext(specs, given, vars, sign, order[..i], name, v.value);
          vars := vars[name := v.value];
        }
      }
      assert order[..|order|] == order;
      AllResolved(specs, given, vars, sign, order);
      error := None;
    }
  }

  /** The value of a declared variable that was not provided is what its generator makes of the values around it. */
  ghost predicate MadeAs(specs: Specs, given: Vars, vars: Vars, sign: (string, string) -> Option<string>,
      name: string) {
    name in specs && name in vars && (name !in given ==> GeneratedAs(specs[name], vars, sign, vars[name]))
  }

  ghost predicate ResolvedBy(specs: Specs, given: Vars, vars: Vars, sign: (string, string) -> Option<string>) {
    && vars.Keys == given.Keys + specs.Keys
    && forall n <- specs.Keys :: MadeAs(specs, given, vars, sign, n)
  }

  /** No loop of signers, and every variable that is not provided has a generator that can be tried. */
  ghost predicate Satisfiable(specs: Specs, given: set<string>) {
    && !HasCycle(SignGraph(specs))
    && forall n <- specs.Keys - given :: Generable(specs, given, n)
  }

  lemma {:induction false} NoCycleWithoutVars(specs: Specs)
    requires specs == map[]
    ensures !HasCycle(SignGraph(specs))
  {
    forall p: seq<string> | |p| >= 2 ensures !IsWalk(SignGraph(specs), p) {
      assert !Edge(SignGraph(specs), p[0], p[1]);
    }
  }

  ghost predicate Progress(specs: Specs, given: Vars, vars: Vars, sign: (string, string) -> Option<string>,
      done: seq<string>) {
    && vars.Keys == given.Keys + Elements(done)
    && (forall k <- given.Keys :: vars[k] == given[k])
    && forall n <- done :: MadeAs(specs, given, vars, sign, n) && (n in given || Generable(specs, given.Keys, n))
  }

  lemma {:induction false} ProgressGiven(specs: Specs, given: Vars, vars: Vars,
      sign: (string, string) -> Option<string>, done: seq<string>, name: string)
    requires Progress(specs, given, vars, sign, done) && name in specs
    ensures name in vars && name in given ==> Progress(specs, given, vars, sign, done + [name])
  {
    ElementsAppend(done, name);
  }

  lemma {:induction false} ResolveStep(specs: Specs, given: Vars, vars: Vars, sign: (string, string) -> Option<string>,
      order: seq<string>, i: nat)
    requires IsOrder(SignGraph(specs), order) && i < |order| && Progress(specs, given, vars, sign, order[..i])
    ensures order[i] in specs && order[..i + 1] == order[..i] + [order[i]]
    ensures order[i] in vars <==> order[i] in given
    ensures order[i] in vars ==> Progress(specs, given, vars, sign, order[..i + 1])
    ensures Generable(specs, given.Keys, order[i]) <==>
              var s := specs[order[i]];
              || s.generate == "hex" || s.generate == ""
              || (s.generate == "jwt" && s.signWith != "" && s.signWith in vars)
  {
    SignerIsBefore(specs, order, i);
    NotTwice(order, i);
    ProgressGiven(specs, given, vars, sign, order[..i], order[i]);
    if specs[order[i]].signWith in Elements(order[..i]) {
      DoneIsDeclared(specs, order, specs[order[i]].signWith);
    }
  }

  lemma {:induction false} Ungenerable(specs: Specs, given: set<string>, name: string)
    requires name in specs && name !in given
    ensures Satisfiable(specs, given) ==> Generable(specs, given, name)
  {
    assert Satisfiable(specs, given) ==> name in specs.Keys - given;
  }

  lemma {:induction false} DoneIsDeclared(specs: Specs, order: seq<string>, name: string)
    requires IsOrder(SignGraph(specs), order) && name in order
    ensures name in specs
  {
    assert name in Elements(order);
  }

  lemma {:induction false} ResolveNext(specs: Specs, given: Vars, vars: Vars, sign: (string, string) -> Option<string>,
      done: seq<string>, name: string, value: string)
    requires Progress(specs, given, vars, sign, done) && name in specs && name !in vars
    requires GeneratedAs(specs[name], vars, sign, value) && Generable(specs, given.Keys, name)
    ensures Progress(specs, given, vars[name := value], sign, done + [name])
  {
    ElementsAppend(done, name);
    forall n <- done ensures MadeAs(specs, given, vars[name := value], sign, n) {
      StillMade(specs, given, vars, name, value, sign, n, true);
    }
    StillMade(specs, given, vars, name, value, sign, name, false);
  }

  lemma {:induction false} AllResolved(specs: Specs, given: Vars, vars: Vars, sign: (string, string) -> Option<string>,
      order: seq<string>)
    requires Progress(specs, given, vars, sign, order) && Elements(order) == specs.Keys
    ensures ResolvedBy(specs, given, vars, sign)
    ensures !HasCycle(SignGraph(specs)) ==> Satisfiable(specs, given.Keys)
  {
    forall n <- specs.Keys ensures MadeAs(specs, given, vars, sign, n) &&
        (n in given || Generable(specs, given.Keys, n)) {
      assert n in Elements(order);
    }
  }

  lemma {:induction false} SignerIsBefore(specs: Specs, order: seq<string>, i: nat)
    requires IsOrder(SignGraph(specs), order) && i < |order|
    ensures order[i] in specs
    ensures specs[order[i]].signWith != "" && specs[order[i]].signWith in specs ==>
              specs[order[i]].signWith in Elements(order[..i])
  {
    var name := order[i];
    var d := SignerOf(specs, name);
    if d.Some? {
      assert d.value in SignGraph(specs)[name];
    }
  }

  lemma {:induction false} NotTwice(order: seq<string>, i: nat)
    requires NoDuplicates(order) && i < |order|
    ensures order[i] !in Elements(order[..i])
  {
  }

  lemma {:induction false} StillMade(specs: Specs, given: Vars, before: Vars, name: string, value: string,
      sign: (string, string) -> Option<string>, other: string, earlier: bool)
    requires name !in before && name in specs && given.Keys <= before.Keys
    requires GeneratedAs(specs[name], before, sign, value)
    requires if earlier then MadeAs(specs, given, before, sign, other) else other == name
    ensures MadeAs(specs, given, before[name := value], sign, other)
  {
  }

  /** The known names are replaced in whatever order the map yields them. */
  method ReplaceKnown(tpl: string, vars: Vars) returns (result: string, ghost order: seq<string>)
    ensures IsMapOrder(order, vars)
    ensures result == ReplaceEach(tpl, order, vars)
  {
    result, order := tpl, [];
    var rest := vars.Keys;
    while rest != {}
      invariant rest <= vars.Keys && NoDuplicates(order) && Elements(order) == vars.Keys - rest &&
                  forall k <- order :: k in vars
      invariant result == ReplaceEach(tpl, order, vars)
      decreases rest
    {
      var k :| k in rest;
      assert k !in Elements(order);
      rest := rest - {k};
      ReplaceOneMore(tpl, order, k, vars);
      ElementsAppend(order, k);
      result := ReplaceAll(result, Placeholder(k), vars[k]);
      order := order + [k];
    }
  }

  /** One pass: the first placeholder, everywhere, becomes one fresh value. */
  method FillNext(s: Substituter, text: string, name: string) returns (r: Option<string>)
    modifies s
    ensures r.None? <==> HexFrom(old(s.entropy), 32).None?
    ensures r.Some? ==>
              var hex := HexFrom(old(s.entropy), 32).value;
              && r.value == ReplaceAll(text, Placeholder(name), hex)
              && s.vars == old(s.vars)[name := hex] && s.entropy == old(s.entropy)[16..]
  {
    var hex := s.GenerateHex(32);
    if hex.None? {
      return None;
    }
    s.vars := s.vars[name := hex.value];
    r := Some(ReplaceAll(text, Placeholder(name), s.vars[name]));
  }

  /** Every pass of the loop lowers the number of openings, so the loop ends, and with no placeholder left. */
  method FillRest(s: Substituter, text: string) returns (r: Option<string>)
    modifies s
    ensures r.Some? ==> AutoFill(text, old(s.vars), old(s.entropy)) == Filled(r.value, s.vars, s.entropy)
    ensures r.None? ==> AutoFill(text, old(s.vars), old(s.entropy)).OutOfEntropy?
    ensures r.Some? ==> !HasClosed(r.value)
    ensures |old(s.entropy)| >= 16 * Opens(text) ==> r.Some?
  {
    AutoFillFinishes(text, s.vars, s.entropy);
    ghost var outcome := AutoFill(text, s.vars, s.entropy);
    var result := text;
    var name := FirstName(result);
    while name.Some?
      invariant name == FirstName(result) && outcome == AutoFill(result, s.vars, s.entropy)
      decreases Opens(result)
    {
      ghost var vars, bytes := s.vars, s.entropy;
      var next := FillNext(s, result, name.value);
      if next.None? {
        AutoFillStops(result, vars, bytes);
        return None;
      }
      AutoFillStep(result, vars, bytes, name.value, HexFrom(bytes, 32).value);
      result := next.value;
      name := FirstName(result);
    }
    AutoFillStops(result, s.vars, s.entropy);
    r := Some(result);
  }

  /** Substituting is resolving the declared variables, replacing every known name in some order, and filling the
      rest. */
  method SubstituteVars(s: Substituter, tpl: string, declared: Option<Specs>)
    returns (r: Option<string>, ghost known: Vars, ghost left: seq<Byte>, ghost order: seq<string>)
    modifies s
    ensures forall k <- old(s.vars).Keys :: k in known && known[k] == old(s.vars)[k]
    ensures declared.None? ==> known == old(s.vars) && left == old(s.entropy)
    ensures r.Some? && declared.Some? ==> ResolvedBy(declared.value, old(s.vars), known, s.sign)
    ensures r.Some? ==> IsMapOrder(order, known)
    ensures r.Some? ==> AutoFill(ReplaceEach(tpl, order, known), known, left) == Filled(r.value, s.vars, s.entropy)
    ensures r.Some? ==> !HasClosed(r.value)
  {
    order := [];
    if declared.Some? {
      var error := s.ResolveVarSpecs(declared.value);
      if error.Some? {
        return None, s.vars, s.entropy, order;
      }
    }
    known, left := s.vars, s.entropy;
    var result;
    result, order := ReplaceKnown(tpl, s.vars);
    r := FillRest(s, result);
  }
}
