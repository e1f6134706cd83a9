/** The three-layer report: what the spec declares, what the Secrets hold, and what applying a file would change. */
module EnvDiff {
  import opened Options
  import opened Ordering

  // ---- The value a declaration resolves to ----

  datatype Binding = Binding(ref: string, key: string)

  datatype EnvVar = EnvVar(name: string, value: string, secretRef: string, fromBinding: Option<Binding>)

  /** What reading a Secret of the workload namespace gives. */
  datatype Secret = NotFound | Unreadable(error: string) | Data(values: map<string, string>)

  datatype Problem =
    | TooManySources
    | NoSuchSecret(ref: string)
    | CannotRead(ref: string, error: string)
    | NoSuchKey(ref: string, name: string)
    | NotBound(ref: string)

  datatype SpecValue = Literal(digest: string) | Bound(ref: string, key: string) | Unresolved(problem: Problem)

  /** The cluster as the report sees it; digests are functions of values. */
  datatype Cluster = Cluster(read: string -> Secret, digest: string -> string, appliedDigest: string -> string)

  function ResolveSpecEnv(c: Cluster, ev: EnvVar, bindings: set<string>): SpecValue {
    var sources := (if ev.value != "" then 1 else 0) + (if ev.secretRef != "" then 1 else 0) +
        (if ev.fromBinding.Some? then 1 else 0);
    if sources > 1 then Unresolved(TooManySources)
    else if ev.secretRef != "" then
      match c.read(ev.secretRef)
      case NotFound => Unresolved(NoSuchSecret(ev.secretRef))
      case Unreadable(e) => Unresolved(CannotRead(ev.secretRef, e))
      case Data(values) =>
        if ev.name !in values then Unresolved(NoSuchKey(ev.secretRef, ev.name)) else Literal(c.digest(values[ev.name]))
    else if ev.fromBinding.Some? then
      if ev.fromBinding.value.ref !in bindings then Unresolved(NotBound(ev.fromBinding.value.ref))
      else Bound(ev.fromBinding.value.ref, ev.fromBinding.value.key)
    else Literal(c.digest(ev.value))
  }

  /** The value itself, where the declaration alone determines one. */
  ghost function SpecText(c: Cluster, ev: EnvVar): Option<string> {
    if ev.fromBinding.Some? || (ev.value != "" && ev.secretRef != "") then None
    else if ev.secretRef == "" then Some(ev.value)
    else
      match c.read(ev.secretRef)
      case Data(values) => if ev.name in values then Some(values[ev.name]) else None
      case _ => None
  }

  /** A digest is reported exactly when the declaration determines a value, and it is that value's. */
  lemma {:induction false} LiteralIffText(c: Cluster, ev: EnvVar, bindings: set<string>)
    ensures ResolveSpecEnv(c, ev, bindings).Literal? <==> SpecText(c, ev).Some?
    ensures SpecText(c, ev).Some? ==> ResolveSpecEnv(c, ev, bindings) == Literal(c.digest(SpecText(c, ev).value))
  {
    if ev.secretRef != "" {
      var s := c.read(ev.secretRef);
      assert s.NotFound? || s.Unreadable? || s.Data?;
    }
  }

  // ---- One finding ----

  datatype Category =
    | SpecShadowed | SpecDiffers | SharedVarStale | MissingFromSecret | Unresolvable | SpecDiffersUntracked
    | Retained | NotDeclared | UserOverride | FromSharedEnv | Derived | InSync

  function Rank(c: Category): nat {
    match c
    case SpecShadowed => 0
    case SpecDiffers => 1
    case SharedVarStale => 2
    case MissingFromSecret => 3
    case Unresolvable => 4
    case SpecDiffersUntracked => 5
    case Retained => 6
    case NotDeclared => 7
    case UserOverride => 8
    case FromSharedEnv => 9
    case Derived => 10
    case InSync => 11
  }

  lemma {:induction false} RanksDiffer(a: Category, b: Category)
    ensures Rank(a) == Rank(b) <==> a == b
  {
    match a
    case SpecShadowed =>
    case SpecDiffers =>
    case SharedVarStale =>
    case MissingFromSecret =>
    case Unresolvable =>
    case SpecDiffersUntracked =>
    case Retained =>
    case NotDeclared =>
    case UserOverride =>
    case FromSharedEnv =>
    case Derived =>
    case InSync =>
  }

  datatype Finding = Finding(name: string, category: Category, specDigest: string, secretDigest: string, source: string)

  datatype Env = Env(value: string, source: string)

  datatype Layers = Layers(app: map<string, Env>, shared: map<string, Env>, lastSpec: map<string, string>)

  function CompareSpecVar(c: Cluster, ev: EnvVar, bindings: set<string>, l: Layers): Finding {
    var sv := ResolveSpecEnv(c, ev, bindings);
    var inSecret := ev.name in l.app;
    var secretDigest := if inSecret then c.digest(l.app[ev.name].value) else "";
    var source := if inSecret then l.app[ev.name].source else "";
    match sv
    case Unresolved(_) => Finding(ev.name, Unresolvable, "", secretDigest, source)
    case Bound(_, _) => Finding(ev.name, if inSecret then Derived else MissingFromSecret, "", secretDigest, source)
    case Literal(d) =>
      if !inSecret then Finding(ev.name, MissingFromSecret, d, "", "")
      else if d == secretDigest then Finding(ev.name, InSync, d, secretDigest, source)
      else
        var category :=
          if ev.name !in l.lastSpec then SpecDiffersUntracked
          else if l.lastSpec[ev.name] != "" && l.lastSpec[ev.name] == c.appliedDigest(l.app[ev.name].value) then
              SpecDiffers
          else if source == "user" || source == "" then UserOverride
          else SpecShadowed;
        Finding(ev.name, category, d, secretDigest, source)
  }

  /** A declared variable is in sync exactly when the app's Secret holds the value the declaration determines, as far as
      digests can tell values apart. */
  lemma {:induction false} InSyncMeansSameValue(c: Cluster, ev: EnvVar, bindings: set<string>, l: Layers)
    requires forall a, b :: c.digest(a) == c.digest(b) ==> a == b
    ensures CompareSpecVar(c, ev, bindings, l).category == InSync
            <==> SpecText(c, ev).Some? && ev.name in l.app && l.app[ev.name].value == SpecText(c, ev).value
  {
    LiteralIffText(c, ev, bindings);
  }

  /** A mismatch that the controller will repair by itself is told from one it will keep: the former is reported exactly
      when the Secret still holds, unchanged, what was last applied from the spec. */
  lemma {:induction false} UnappliedIffStillTracking(c: Cluster, ev: EnvVar, bindings: set<string>, l: Layers)
    requires forall a, b :: c.appliedDigest(a) == c.appliedDigest(b) ==> a == b
    requires forall a :: c.appliedDigest(a) != ""
    requires ev.name in l.lastSpec && ev.name in l.app && SpecText(c, ev).Some?
    requires c.digest(SpecText(c, ev).value) != c.digest(l.app[ev.name].value)
    ensures forall applied :: l.lastSpec[ev.name] == c.appliedDigest(applied) ==>
              (CompareSpecVar(c, ev, bindings, l).category == SpecDiffers <==> l.app[ev.name].value == applied)
    ensures CompareSpecVar(c, ev, bindings, l).category in {SpecDiffers, UserOverride, SpecShadowed}
    ensures CompareSpecVar(c, ev, bindings, l).category == SpecShadowed ==> l.app[ev.name].source !in {"user", ""}
  {
    LiteralIffText(c, ev, bindings);
  }

  function Leftover(c: Cluster, name: string, e: Env, sharedVars: map<string, string>): Finding {
    var d := c.digest(e.value);
    if e.source == "shared" && name in sharedVars && sharedVars[name] != d then
        Finding(name, SharedVarStale, sharedVars[name], d, e.source)
    else if e.source == "binding" || e.source == "shared" || e.source == "generated" then
        Finding(name, Derived, "", d, e.source)
    else if e.source == "retained" then Finding(name, Retained, "", d, e.source)
    else Finding(name, NotDeclared, "", d, e.source)
  }

  function SharedOnly(c: Cluster, name: string, e: Env): Finding {
    Finding(name, FromSharedEnv, "", c.digest(e.value), "shared-env")
  }

  // ---- The report ----

  function SpecNames(spec: seq<EnvVar>): seq<string> {
    seq(|spec|, i requires 0 <= i < |spec| => spec[i].name)
  }

  function Names(findings: seq<Finding>): seq<string> {
    seq(|findings|, i requires 0 <= i < |findings| => findings[i].name)
  }

  /** A finding is what its name deserves: a comparison if declared, else what the layers say of it. */
  ghost predicate Explains(c: Cluster, spec: seq<EnvVar>, bindings: set<string>, l: Layers,
      sharedVars: map<string, string>, f: Finding) {
    if f.name in SpecNames(spec) then Compared(c, spec, bindings, l, f)
        else Undeclared(c, l, sharedVars, f.name) == Some(f)
  }

  ghost predicate Compared(c: Cluster, spec: seq<EnvVar>, bindings: set<string>, l: Layers, f: Finding) {
    exists i :: 0 <= i < |spec| && spec[i].name == f.name && f == CompareSpecVar(c, spec[i], bindings, l)
  }

  function Undeclared(c: Cluster, l: Layers, sharedVars: map<string, string>, name: string): Option<Finding> {
    if name in l.app then Some(Leftover(c, name, l.app[name], sharedVars))
    else if name in l.shared then Some(SharedOnly(c, name, l.shared[name]))
    else None
  }

  predicate FindingLess(a: Finding, b: Finding) {
    if a.category != b.category then Rank(a.category) < Rank(b.category) else StringLess(a.name, b.name)
  }

  lemma {:induction false} FindingLessIsWeak()
    ensures StrictWeak(FindingLess)
  {
    forall x, y | FindingLess(x, y) ensures !FindingLess(y, x) {
      StringAsymmetric(x.name, y.name);
    }
    forall x, y, z | FindingLess(x, z) ensures FindingLess(x, y) || FindingLess(y, z) {
      RanksDiffer(x.category, y.category);
      RanksDiffer(y.category, z.category);
      if x.category == y.category == z.category {
        StringTrichotomy(x.name, y.name);
        if StringLess(y.name, x.name) {
          StringTransitive(y.name, x.name, z.name);
        }
      }
    }
  }

  lemma {:induction false} StringAsymmetric(a: string, b: string)
    ensures !(StringLess(a, b) && StringLess(b, a))
  {
    StringTrichotomy(a, a);
    if StringLess(b, a) && StringLess(a, b) {
      StringTransitive(a, b, a);
    }
  }

  method CompareAll(c: Cluster, spec: seq<EnvVar>, bindings: set<string>, l: Layers) returns (findings: seq<Finding>)
    ensures |findings| == |spec| && forall i | 0 <= i < |spec| :: findings[i] == CompareSpecVar(c, spec[i], bindings, l)
  {
    findings := [];
    for i := 0 to |spec|
      invariant |findings| == i && forall j | 0 <= j < i :: findings[j] == CompareSpecVar(c, spec[j], bindings, l)
    {
      findings := findings + [CompareSpecVar(c, spec[i], bindings, l)];
    }
  }

  /** Names left in the app's Secret, in whatever order the map yields them. */
  method LeftoverFindings(c: Cluster, seen: set<string>, l: Layers, sharedVars: map<string, string>)
      returns (findings: seq<Finding>)
    ensures NoDuplicates(Names(findings)) && Elements(Names(findings)) == l.app.Keys - seen
    ensures forall f <- findings :: f.name in l.app && f == Leftover(c, f.name, l.app[f.name], sharedVars)
  {
    findings := [];
    var rest := l.app.Keys;
    while rest != {}
      invariant rest <= l.app.Keys
      invariant NoDuplicates(Names(findings)) && Elements(Names(findings)) == l.app.Keys - seen - rest
      invariant forall f <- findings :: f.name in l.app && f == Leftover(c, f.name, l.app[f.name], sharedVars)
      decreases rest
    {
      var name :| name in rest;
      assert name !in Elements(Names(findings));
      rest := rest - {name};
      if name in seen {
        continue;
      }
      NamesAppend(findings, Leftover(c, name, l.app[name], sharedVars));
      findings := findings + [Leftover(c, name, l.app[name], sharedVars)];
    }
  }

  method SharedFindings(c: Cluster, seen: set<string>, l: Layers) returns (findings: seq<Finding>)
    ensures NoDuplicates(Names(findings)) && Elements(Names(findings)) == l.shared.Keys - seen - l.app.Keys
    ensures forall f <- findings :: f.name in l.shared && f == SharedOnly(c, f.name, l.shared[f.name])
  {
    findings := [];
    var rest := l.shared.Keys;
    while rest != {}
      invariant rest <= l.shared.Keys
      invariant NoDuplicates(Names(findings)) && Elements(Names(findings)) == l.shared.Keys - seen - l.app.Keys - rest
      invariant forall f <- findings :: f.name in l.shared && f == SharedOnly(c, f.name, l.shared[f.name])
      decreases rest
    {
      var name :| name in rest;
      assert name !in Elements(Names(findings));
      rest := rest - {name};
      if name in seen || name in l.app {
        continue;
      }
      NamesAppend(findings, SharedOnly(c, name, l.shared[name]));
      findings := findings + [SharedOnly(c, name, l.shared[name])];
    }
  }

  lemma {:induction false} NamesAppend(findings: seq<Finding>, f: Finding)
    ensures Names(findings + [f]) == Names(findings) + [f.name]
    ensures Elements(Names(findings + [f])) == Elements(Names(findings)) + {f.name}
    ensures NoDuplicates(Names(findings)) && f.name !in Elements(Names(findings)) ==>
              NoDuplicates(Names(findings + [f]))
  {
    assert Names(findings + [f]) == Names(findings) + [f.name];
    ElementsAppend(Names(findings), f.name);
  }

  /** What a report must be: every known name, once for each declaration of it and once if it is not declared; each
      finding explained; and the ones that want attention first, by name within a category. */
  ghost predicate IsReport(c: Cluster, spec: seq<EnvVar>, bindings: set<string>, l: Layers,
      sharedVars: map<string, string>, out: seq<Finding>) {
    && NonDescending(FindingLess, out)
    && (forall f <- out :: Explains(c, spec, bindings, l, sharedVars, f))
    && Elements(Names(out)) == Elements(SpecNames(spec)) + l.app.Keys + l.shared.Keys
    && (NoDuplicates(SpecNames(spec)) <==> NoDuplicates(Names(out)))
  }

  method BuildFindings(c: Cluster, enabled: bool, spec: seq<EnvVar>, bindings: set<string>, l: Layers,
      sharedVars: map<string, string>)
    returns (out: seq<Finding>)
    ensures !enabled ==> out == []
    ensures enabled ==> IsReport(c, spec, bindings, l, sharedVars, out)
  {
    if !enabled {
      return [];
    }
    var seen: set<string> := set ev | ev in spec :: ev.name;
    var declared := CompareAll(c, spec, bindings, l);
    var leftover := LeftoverFindings(c, seen, l, sharedVars);
    var shared := SharedFindings(c, seen, l);
    var findings := declared + leftover + shared;
    SeenIsNames(spec, seen);
    Gathered(c, spec, bindings, l, sharedVars, declared, leftover, shared);
    out := Sort(FindingLess, findings);
    FindingLessIsWeak();
    SortSortsWeakly(FindingLess, findings);
    SortedReport(c, spec, bindings, l, sharedVars, findings, out);
  }

  lemma {:induction false} SeenIsNames(spec: seq<EnvVar>, seen: set<string>)
    requires seen == set ev | ev in spec :: ev.name
    ensures seen == Elements(SpecNames(spec))
  {
    var names := SpecNames(spec);
    forall n ensures n in seen <==> n in names {
      if n in seen {
        var ev :| ev in spec && ev.name == n;
        var i :| 0 <= i < |spec| && spec[i] == ev;
        assert names[i] == n;
      }
      if n in names {
        var i :| 0 <= i < |names| && names[i] == n;
        assert spec[i] in spec;
      }
    }
  }

  /** All the conditions on a report but its order. */
  ghost predicate Complete(c: Cluster, spec: seq<EnvVar>, bindings: set<string>, l: Layers,
      sharedVars: map<string, string>, findings: seq<Finding>) {
    && (forall f <- findings :: Explains(c, spec, bindings, l, sharedVars, f))
    && Elements(Names(findings)) == Elements(SpecNames(spec)) + l.app.Keys + l.shared.Keys
    && (NoDuplicates(SpecNames(spec)) <==> NoDuplicates(Names(findings)))
  }

  lemma {:induction false} ConcatNames(a: seq<Finding>, b: seq<Finding>)
    ensures Names(a + b) == Names(a) + Names(b)
    ensures Elements(Names(a + b)) == Elements(Names(a)) + Elements(Names(b))
    ensures NoDuplicates(Names(b)) && Elements(Names(a)) !! Elements(Names(b)) ==>
              (NoDuplicates(Names(a)) <==> NoDuplicates(Names(a + b)))
  {
    var x, y, z := Names(a), Names(b), Names(a + b);
    assert z == x + y;
    forall n ensures n in z <==> n in x || n in y {
    }
    if NoDuplicates(z) {
      forall i, j | 0 <= i < j < |x| ensures x[i] != x[j] {
        assert z[i] != z[j];
      }
    }
    if NoDuplicates(x) && NoDuplicates(y) && Elements(x) !! Elements(y) {
      forall i, j | 0 <= i < j < |z| ensures z[i] != z[j] {
        if i < |x| <= j {
          assert x[i] in Elements(x) && y[j - |x|] in Elements(y);
        }
      }
    }
  }

  lemma {:induction false} Gathered(c: Cluster, spec: seq<EnvVar>, bindings: set<string>, l: Layers,
      sharedVars: map<string, string>,
      declared: seq<Finding>, leftover: seq<Finding>, shared: seq<Finding>)
    requires |declared| == |spec| &&
              forall i | 0 <= i < |spec| :: declared[i] == CompareSpecVar(c, spec[i], bindings, l)
    requires NoDuplicates(Names(leftover)) && Elements(Names(leftover)) == l.app.Keys - Elements(SpecNames(spec))
    requires forall f <- leftover :: f.name in l.app && f == Leftover(c, f.name, l.app[f.name], sharedVars)
    requires NoDuplicates(Names(shared)) &&
              Elements(Names(shared)) == l.shared.Keys - Elements(SpecNames(spec)) - l.app.Keys
    requires forall f <- shared :: f.name in l.shared && f == SharedOnly(c, f.name, l.shared[f.name])
    ensures Complete(c, spec, bindings, l, sharedVars, declared + leftover + shared)
  {
    assert Names(declared) == SpecNames(spec);
    ConcatNames(declared, leftover);
    ConcatNames(declared + leftover, shared);
    forall f <- declared + leftover + shared ensures Explains(c, spec, bindings, l, sharedVars, f) {
      if f in declared {
        var i :| 0 <= i < |declared| && declared[i] == f;
        assert f == CompareSpecVar(c, spec[i], bindings, l) && f.name == SpecNames(spec)[i];
      } else if f in leftover {
        NameOf(leftover, f);
      } else {
        NameOf(shared, f);
      }
    }
  }

  lemma {:induction false} NameOf(findings: seq<Finding>, f: Finding)
    requires f in findings
    ensures f.name in Elements(Names(findings))
  {
    var i :| 0 <= i < |findings| && findings[i] == f;
    assert Names(findings)[i] == f.name;
  }

  lemma {:induction false} SortedReport(c: Cluster, spec: seq<EnvVar>, bindings: set<string>, l: Layers,
      sharedVars: map<string, string>,
      findings: seq<Finding>, out: seq<Finding>)
    requires Complete(c, spec, bindings, l, sharedVars, findings)
    requires NonDescending(FindingLess, out) && multiset(out) == multiset(findings)
    ensures IsReport(c, spec, bindings, l, sharedVars, out)
  {
    SameElements(out, findings);
    NamesOfSame(out, findings);
    forall f <- out ensures Explains(c, spec, bindings, l, sharedVars, f) {
      assert f in findings;
    }
  }

  lemma {:induction false} NamesOfSame(a: seq<Finding>, b: seq<Finding>)
    requires multiset(a) == multiset(b)
    ensures Elements(Names(a)) == Elements(Names(b)) && (NoDuplicates(Names(a)) <==> NoDuplicates(Names(b)))
  {
    NamesSubset(a, b);
    NamesSubset(b, a);
    NamesMultiset(a, b);
    OnceEach(Names(a));
    OnceEach(Names(b));
  }

  lemma {:induction false} NamesSubset(a: seq<Finding>, b: seq<Finding>)
    requires multiset(a) == multiset(b)
    ensures Elements(Names(a)) <= Elements(Names(b))
  {
    SameElements(a, b);
    forall n <- Names(a) ensures n in Names(b) {
      var i :| 0 <= i < |a| && Names(a)[i] == n;
      assert a[i] in b;
      NameOf(b, a[i]);
    }
  }

  lemma {:induction false} NamesWithoutOne(xs: seq<Finding>, i: nat)
    requires i < |xs|
    ensures multiset(Names(xs)) == multiset(Names(xs[..i] + xs[i + 1..])) + multiset{xs[i].name}
  {
    WithoutOne(Names(xs), i);
    assert Names(xs[..i] + xs[i + 1..]) == Names(xs)[..i] + Names(xs)[i + 1..];
  }

  lemma {:induction false} CancelOne<T>(a: multiset<T>, b: multiset<T>, x: T)
    requires a + multiset{x} == b + multiset{x}
    ensures a == b
  {
    assert a == (a + multiset{x}) - multiset{x};
    assert b == (b + multiset{x}) - multiset{x};
  }

  lemma {:induction false} NamesMultiset(a: seq<Finding>, b: seq<Finding>)
    requires multiset(a) == multiset(b)
    ensures multiset(Names(a)) == multiset(Names(b))
    decreases |a|
  {
    if a == [] {
      assert b == [] by {
        SameElements(a, b);
      }
    } else {
      var i := MatchFirst(a, b);
      NamesMultiset(a[..0] + a[1..], b[..i] + b[i + 1..]);
      NamesWithoutOne(a, 0);
      NamesWithoutOne(b, i);
    }
  }

  lemma {:induction false} MatchFirst(a: seq<Finding>, b: seq<Finding>) returns (i: nat)
    requires multiset(a) == multiset(b) && a != []
    ensures i < |b| && b[i] == a[0] && multiset(a[..0] + a[1..]) == multiset(b[..i] + b[i + 1..])
  {
    SameElements(a, b);
    assert a[0] in b;
    i :| 0 <= i < |b| && b[i] == a[0];
    WithoutOne(a, 0);
    WithoutOne(b, i);
    CancelOne(multiset(a[..0] + a[1..]), multiset(b[..i] + b[i + 1..]), a[0]);
  }

  lemma {:induction false} OnceEach(xs: seq<string>)
    ensures NoDuplicates(xs) <==> forall x :: multiset(xs)[x] <= 1
  {
    if NoDuplicates(xs) {
      DistinctMultiset(xs);
    } else {
      var i: nat, j: nat :| i < j < |xs| && xs[i] == xs[j];
      TwiceInMultiset(xs, i, j);
    }
  }

  // ---- The report does not depend on the order of maps ----

  lemma {:induction false} DeclaredOnce(spec: seq<EnvVar>, i: nat, j: nat)
    requires NoDuplicates(SpecNames(spec)) && i < |spec| && j < |spec| && spec[i].name == spec[j].name
    ensures i == j
  {
    assert SpecNames(spec)[i] == SpecNames(spec)[j];
  }

  lemma {:induction false} ExplainedOnce(c: Cluster, spec: seq<EnvVar>, bindings: set<string>, l: Layers,
      sharedVars: map<string, string>, f: Finding, g: Finding)
    requires NoDuplicates(SpecNames(spec)) && f.name == g.name
    requires Explains(c, spec, bindings, l, sharedVars, f) && Explains(c, spec, bindings, l, sharedVars, g)
    ensures f == g
  {
    if f.name in SpecNames(spec) {
      var i :| 0 <= i < |spec| && spec[i].name == f.name && f == CompareSpecVar(c, spec[i], bindings, l);
      var j :| 0 <= j < |spec| && spec[j].name == g.name && g == CompareSpecVar(c, spec[j], bindings, l);
      DeclaredOnce(spec, i, j);
    }
  }

  lemma {:induction false} SameReports(c: Cluster, spec: seq<EnvVar>, bindings: set<string>, l: Layers,
      sharedVars: map<string, string>,
      xs: seq<Finding>, ys: seq<Finding>, f: Finding)
    requires NoDuplicates(SpecNames(spec)) && f in xs
    requires IsReport(c, spec, bindings, l, sharedVars, xs) && IsReport(c, spec, bindings, l, sharedVars, ys)
    ensures f in ys
  {
    NameOf(xs, f);
    assert f.name in Elements(Names(ys));
    var i :| 0 <= i < |ys| && Names(ys)[i] == f.name;
    assert ys[i] in ys;
    ExplainedOnce(c, spec, bindings, l, sharedVars, f, ys[i]);
  }

  /** Two findings of one report that compare equal have the same name. */
  lemma {:induction false} TiesAreEqual(a: Finding, b: Finding)
    requires !FindingLess(a, b) && !FindingLess(b, a)
    ensures a.name == b.name
  {
    RanksDiffer(a.category, b.category);
    StringTrichotomy(a.name, b.name);
  }

  lemma {:induction false} OneSorting(xs: seq<Finding>, ys: seq<Finding>)
    requires NonDescending(FindingLess, xs) && NonDescending(FindingLess, ys)
    requires NoDuplicates(Names(xs)) && NoDuplicates(Names(ys)) && forall f :: f in xs <==> f in ys
    ensures xs == ys
    decreases |xs|
  {
    if xs != [] {
      assert xs[0] in xs && ys != [];
    }
    if ys != [] {
      assert ys[0] in ys && xs != [];
    }
    if xs != [] {
      assert xs[0] in ys && ys[0] in xs;
      var i :| 0 <= i < |ys| && ys[i] == xs[0];
      var j :| 0 <= j < |xs| && xs[j] == ys[0];
      assert i > 0 ==> !FindingLess(ys[i], ys[0]);
      assert j > 0 ==> !FindingLess(xs[j], xs[0]);
      StringTrichotomy(xs[0].name, ys[0].name);
      TiesAreEqual(xs[0], ys[0]);
      SameByName(xs, 0, j);
      TailOfFindings(xs);
      TailOfFindings(ys);
      OneSorting(xs[1..], ys[1..]);
      assert xs == [xs[0]] + xs[1..] && ys == [ys[0]] + ys[1..];
    }
  }

  lemma {:induction false} SameByName(xs: seq<Finding>, i: nat, j: nat)
    requires NoDuplicates(Names(xs)) && i < |xs| && j < |xs| && xs[i].name == xs[j].name
    ensures i == j
  {
    assert Names(xs)[i] == Names(xs)[j];
  }

  lemma {:induction false} TailOfFindings(xs: seq<Finding>)
    requires xs != [] && NonDescending(FindingLess, xs) && NoDuplicates(Names(xs))
    ensures NonDescending(FindingLess, xs[1..]) && NoDuplicates(Names(xs[1..]))
    ensures forall f :: f in xs[1..] <==> f in xs && f != xs[0]
  {
    var names, tail := Names(xs), Names(xs[1..]);
    forall i, j | 0 <= i < j < |tail| ensures tail[i] != tail[j] {
      assert names[i + 1] != names[j + 1];
    }
    assert xs == [xs[0]] + xs[1..];
    forall k | 0 < k < |xs| ensures xs[k] != xs[0] {
      assert names[0] != names[k];
    }
  }

  /** With distinct names in the spec there is only one report: the order in which maps are walked does not show. */
  lemma {:induction false} ReportIsUnique(c: Cluster, spec: seq<EnvVar>, bindings: set<string>, l: Layers,
      sharedVars: map<string, string>,
      xs: seq<Finding>, ys: seq<Finding>)
    requires NoDuplicates(SpecNames(spec))
    requires IsReport(c, spec, bindings, l, sharedVars, xs) && IsReport(c, spec, bindings, l, sharedVars, ys)
    ensures xs == ys
  {
    forall f ensures f in xs <==> f in ys {
      if f in xs {
        SameReports(c, spec, bindings, l, sharedVars, xs, ys, f);
      }
      if f in ys {
        SameReports(c, spec, bindings, l, sharedVars, ys, xs, f);
      }
    }
    OneSorting(xs, ys);
  }

  // ---- What applying a file would change ----

  type Digests = map<string, SpecValue>

  datatype ChangeKind = AddVar | RemoveVar | ChangeVar

  datatype Change = Change(environment: string, name: string, kind: ChangeKind, liveDigest: string, fileDigest: string)

  function DigestIn(v: SpecValue): string {
    if v.Literal? then v.digest else ""
  }

  /** The row for one name, if the two sides differ there. */
  function ChangeFor(env: string, n: string, live: Digests, file: Digests): Option<Change> {
    if n !in live then if n in file then Some(Change(env, n, AddVar, "", DigestIn(file[n]))) else None
    else if n !in file then Some(Change(env, n, RemoveVar, DigestIn(live[n]), ""))
    else if live[n] != file[n] then Some(Change(env, n, ChangeVar, DigestIn(live[n]), DigestIn(file[n])))
    else None
  }

  function DigestsOf(c: Cluster, vars: seq<EnvVar>, bindings: set<string>): Digests
    decreases |vars|
  {
    if vars == [] then map[] else
    var last := vars[|vars| - 1];
    DigestsOf(c, vars[..|vars| - 1], bindings)[last.name := ResolveSpecEnv(c, last, bindings)]
  }

  /** An environment of an app's spec, with the names of its bindings. */
  datatype EnvSpec = EnvSpec(name: string, vars: seq<EnvVar>, bindings: seq<string>)

  type App = seq<EnvSpec>

  /** The first environment of that name, if the app declares one. */
  function FirstEnv(app: App, name: string): Option<EnvSpec> {
    if app == [] then None else if app[0].name == name then Some(app[0]) else FirstEnv(app[1..], name)
  }

  method FindAppEnv(app: App, name: string) returns (r: Option<EnvSpec>)
    ensures r == FirstEnv(app, name)
  {
    for i := 0 to |app|
      invariant FirstEnv(app, name) == FirstEnv(app[i..], name)
    {
      if app[i].name == name {
        return Some(app[i]);
      }
      assert app[i..][1..] == app[i + 1..];
    }
    r := None;
  }

  /** What an app declares for an environment, resolved. */
  ghost function AppDigests(c: Cluster, app: App, name: string): Digests {
    var env := FirstEnv(app, name);
    if env.None? then map[] else DigestsOf(c, env.value.vars, Elements(env.value.bindings))
  }

  method SpecDigests(c: Cluster, app: App, name: string) returns (out: Digests)
    ensures out == AppDigests(c, app, name)
  {
    out := map[];
    var env := FindAppEnv(app, name);
    if env.None? {
      return;
    }
    var vars := env.value.vars;
    var bindings: set<string> := {};
    for k := 0 to |env.value.bindings|
      invariant bindings == Elements(env.value.bindings[..k])
    {
      assert env.value.bindings[..k + 1] == env.value.bindings[..k] + [env.value.bindings[k]];
      ElementsAppend(env.value.bindings[..k], env.value.bindings[k]);
      bindings := bindings + {env.value.bindings[k]};
    }
    assert env.value.bindings[..|env.value.bindings|] == env.value.bindings;
    for k := 0 to |vars|
      invariant out == DigestsOf(c, vars[..k], bindings)
    {
      assert vars[..k + 1][..k] == vars[..k];
      out := out[vars[k].name := ResolveSpecEnv(c, vars[k], bindings)];
    }
    assert vars[..|vars|] == vars;
  }

  function LastIndex(vars: seq<EnvVar>, n: string): (i: int)
    ensures -1 <= i < |vars|
    ensures i >= 0 ==> vars[i].name == n
    ensures forall j | i < j < |vars| :: vars[j].name != n
    decreases |vars|
  {
    if vars == [] then -1
    else if vars[|vars| - 1].name == n then |vars| - 1
    else
      var front := vars[..|vars| - 1];
      assert forall j | 0 <= j < |front| :: front[j] == vars[j];
      LastIndex(front, n)
  }

  /** Every declared name has the value of its last declaration, and no other name has one. */
  lemma {:induction false} LastDeclarationWins(c: Cluster, vars: seq<EnvVar>, bindings: set<string>, n: string)
    ensures n in DigestsOf(c, vars, bindings) <==> LastIndex(vars, n) >= 0
    ensures n in DigestsOf(c, vars, bindings) ==>
              DigestsOf(c, vars, bindings)[n] == ResolveSpecEnv(c, vars[LastIndex(vars, n)], bindings)
    decreases |vars|
  {
    if vars != [] && vars[|vars| - 1].name != n {
      LastDeclarationWins(c, vars[..|vars| - 1], bindings, n);
    }
  }

  ghost predicate IsChanges(env: string, live: Digests, file: Digests, rows: seq<Change>) {
    && (forall i, j | 0 <= i < j < |rows| :: StringLess(rows[i].name, rows[j].name))
    && (forall r <- rows :: ChangeFor(env, r.name, live, file) == Some(r))
    && (forall n :: ChangeFor(env, n, live, file).Some? ==> ChangeFor(env, n, live, file).value in rows)
  }

  /** The rows of the names handled so far. */
  ghost predicate ChangesUpTo(env: string, live: Digests, file: Digests, done: seq<string>, rows: seq<Change>) {
    && (forall i, j | 0 <= i < j < |rows| :: StringLess(rows[i].name, rows[j].name))
    && (forall r <- rows :: r.name in done && ChangeFor(env, r.name, live, file) == Some(r))
    && (forall n <- done :: ChangeFor(env, n, live, file).Some? ==> ChangeFor(env, n, live, file).value in rows)
  }

  lemma {:induction false} ChangeName(env: string, n: string, live: Digests, file: Digests)
    ensures var row := ChangeFor(env, n, live, file);
            row.Some? ==> row.value.name == n && row.value.environment == env && (n in live || n in file)
  {
  }

  lemma {:induction false} NextChange(env: string, live: Digests, file: Digests, done: seq<string>, rows: seq<Change>,
      n: string)
    requires ChangesUpTo(env, live, file, done, rows) && forall x <- done :: StringLess(x, n)
    ensures var row := ChangeFor(env, n, live, file);
            ChangesUpTo(env, live, file, done + [n], rows + if row.Some? then [row.value] else [])
  {
    ChangeName(env, n, live, file);
  }

  lemma {:induction false} NextRow(env: string, live: Digests, file: Digests, ordered: seq<string>, i: nat,
      rows: seq<Change>)
    requires Ascending(StringLess, ordered) && i < |ordered| && ChangesUpTo(env, live, file, ordered[..i], rows)
    ensures var row := ChangeFor(env, ordered[i], live, file);
            ChangesUpTo(env, live, file, ordered[..i + 1], rows + if row.Some? then [row.value] else [])
  {
    EarlierAreLess(StringLess, ordered, i);
    NextChange(env, live, file, ordered[..i], rows, ordered[i]);
    assert ordered[..i + 1] == ordered[..i] + [ordered[i]];
  }

  /** The rows for one environment, by name. */
  method EnvChanges(env: string, live: Digests, file: Digests) returns (rows: seq<Change>)
    ensures IsChanges(env, live, file, rows)
  {
    var ordered := SortNames(live.Keys + file.Keys);
    rows := [];
    for i := 0 to |ordered|
      invariant ChangesUpTo(env, live, file, ordered[..i], rows)
    {
      NextRow(env, live, file, ordered, i, rows);
      var row := ChangeFor(env, ordered[i], live, file);
      if row.Some? {
        rows := rows + [row.value];
      } else {
        assert rows + [] == rows;
      }
    }
    assert ordered[..|ordered|] == ordered;
    AllNamesDone(env, live, file, ordered, rows);
  }

  lemma {:induction false} AllNamesDone(env: string, live: Digests, file: Digests, done: seq<string>, rows: seq<Change>)
    requires ChangesUpTo(env, live, file, done, rows) && Elements(done) == live.Keys + file.Keys
    ensures IsChanges(env, live, file, rows)
  {
    forall n | ChangeFor(env, n, live, file).Some? ensures ChangeFor(env, n, live, file).value in rows {
      ChangeName(env, n, live, file);
      assert n in Elements(done);
    }
  }

  /** No rows exactly when applying the file would change nothing. */
  lemma {:induction false} NoChangesIffEqual(env: string, live: Digests, file: Digests, rows: seq<Change>)
    requires IsChanges(env, live, file, rows)
    ensures rows == [] <==> live == file
  {
    if rows == [] {
      forall n ensures n in live <==> n in file {
        assert ChangeFor(env, n, live, file).None?;
      }
      forall n <- live.Keys ensures live[n] == file[n] {
        assert ChangeFor(env, n, live, file).None?;
      }
    } else {
      assert ChangeFor(env, rows[0].name, live, file) == Some(rows[0]) by {
        assert rows[0] in rows;
      }
    }
  }

  /** Applying the rows, taking new values from the file. */
  function Replay(live: Digests, file: Digests, rows: seq<Change>): Digests
    decreases |rows|
  {
    if rows == [] then live else
    var before, r := Replay(live, file, rows[..|rows| - 1]), rows[|rows| - 1];
    if r.kind == RemoveVar then before - {r.name} else if r.name in file then before[r.name := file[r.name]] else before
  }

  lemma {:induction false} ReplayAt(env: string, live: Digests, file: Digests, rows: seq<Change>, n: string)
    requires forall r <- rows :: ChangeFor(env, r.name, live, file) == Some(r)
    ensures var after := Replay(live, file, rows);
            if exists r <- rows :: r.name == n then (n in after <==> n in file) && (n in file ==> after[n] == file[n])
            else (n in after <==> n in live) && (n in live ==> after[n] == live[n])
    decreases |rows|
  {
    if rows != [] {
      var front, last := rows[..|rows| - 1], rows[|rows| - 1];
      assert rows == front + [last] && last in rows;
      ReplayAt(env, live, file, front, n);
      assert ChangeFor(env, last.name, live, file) == Some(last);
    }
  }

  /** The rows are enough: replaying them turns the live declarations into the file's. */
  lemma {:induction false} ReplayGivesFile(env: string, live: Digests, file: Digests, rows: seq<Change>)
    requires IsChanges(env, live, file, rows)
    ensures Replay(live, file, rows) == file
  {
    var after := Replay(live, file, rows);
    forall n ensures (n in after <==> n in file) && (n in file ==> after[n] == file[n]) {
      ReplayAt(env, live, file, rows, n);
      if !exists r <- rows :: r.name == n {
        assert ChangeFor(env, n, live, file).None?;
      }
    }
  }

  // ---- All environments ----

  ghost function RowsOf(rows: seq<Change>, env: string): seq<Change>
    decreases |rows|
  {
    if rows == [] then [] else
    var last := rows[|rows| - 1];
    RowsOf(rows[..|rows| - 1], env) + if last.environment == env then [last] else []
  }

  lemma {:induction false} RowsOfConcat(a: seq<Change>, b: seq<Change>, env: string)
    ensures RowsOf(a + b, env) == RowsOf(a, env) + RowsOf(b, env)
    decreases |b|
  {
    if b == [] {
      assert a + b == a;
    } else {
      RowsOfConcat(a, b[..|b| - 1], env);
      assert (a + b)[..|a + b| - 1] == a + b[..|b| - 1];
    }
  }

  lemma {:induction false} RowsOfAll(rows: seq<Change>, own: string, env: string)
    requires forall r <- rows :: r.environment == own
    ensures RowsOf(rows, env) == if own == env then rows else []
    decreases |rows|
  {
    if rows != [] {
      assert rows == rows[..|rows| - 1] + [rows[|rows| - 1]];
      assert rows[|rows| - 1] in rows;
      RowsOfAll(rows[..|rows| - 1], own, env);
    }
  }

  lemma {:induction false} RowsOfMore(rows: seq<Change>, more: seq<Change>, own: string, env: string)
    requires forall r <- more :: r.environment == own
    ensures RowsOf(rows + more, env) == RowsOf(rows, env) + if own == env then more else []
  {
    RowsOfConcat(rows, more, env);
    RowsOfAll(more, own, env);
  }

  lemma {:induction false} ChangesAreOwn(env: string, live: Digests, file: Digests, rows: seq<Change>)
    requires IsChanges(env, live, file, rows)
    ensures forall r <- rows :: r.environment == env
  {
    forall r <- rows ensures r.environment == env {
      ChangeName(env, r.name, live, file);
    }
  }

  /** The live app and the app of the file; Secrets are read from each environment's own namespace. */
  datatype Comparison = Comparison(cluster: string -> Cluster, live: App, file: App)

  ghost function LiveIn(w: Comparison, e: string): Digests {
    AppDigests(w.cluster(e), w.live, e)
  }

  ghost function FileIn(w: Comparison, e: string): Digests {
    AppDigests(w.cluster(e), w.file, e)
  }

  ghost predicate EnvDone(w: Comparison, rows: seq<Change>, e: string) {
    IsChanges(e, LiveIn(w, e), FileIn(w, e), RowsOf(rows, e))
  }

  ghost predicate EnvsDone(w: Comparison, rows: seq<Change>, envs: seq<string>) {
    && (forall e <- envs :: EnvDone(w, rows, e))
    && (forall e | e !in envs :: RowsOf(rows, e) == [])
  }

  lemma {:induction false} OneMoreEnv(w: Comparison, envs: seq<string>, rows: seq<Change>, e: string, more: seq<Change>)
    requires EnvsDone(w, rows, envs) && e !in envs && IsChanges(e, LiveIn(w, e), FileIn(w, e), more)
    ensures EnvsDone(w, rows + more, envs + [e])
  {
    ChangesAreOwn(e, LiveIn(w, e), FileIn(w, e), more);
    assert [] + more == more;
    forall x ensures x in envs ==> EnvDone(w, rows + more, x) {
      RowsOfMore(rows, more, e, x);
      assert RowsOf(rows, x) + [] == RowsOf(rows, x);
    }
    forall x ensures x == e ==> EnvDone(w, rows + more, x) {
      RowsOfMore(rows, more, e, x);
    }
    forall x | x !in envs + [e] ensures RowsOf(rows + more, x) == [] {
      RowsOfMore(rows, more, e, x);
    }
  }

  /** With distinct environments, the rows of each are exactly the changes between what the two apps declare for it. */
  method BuildCrdChanges(w: Comparison, envs: seq<string>) returns (rows: seq<Change>)
    requires NoDuplicates(envs)
    ensures EnvsDone(w, rows, envs)
  {
    rows := [];
    for i := 0 to |envs|
      invariant EnvsDone(w, rows, envs[..i])
    {
      var e := envs[i];
      var live := SpecDigests(w.cluster(e), w.live, e);
      var file := SpecDigests(w.cluster(e), w.file, e);
      var more := EnvChanges(e, live, file);
      assert envs[..i + 1] == envs[..i] + [e] && e !in envs[..i];
      OneMoreEnv(w, envs[..i], rows, e, more);
      rows := rows + more;
    }
    assert envs[..|envs|] == envs;
  }

  /** No rows at all exactly when the file declares the same for every environment. */
  lemma {:induction false} NothingToApplyIff(w: Comparison, rows: seq<Change>, envs: seq<string>)
    requires EnvsDone(w, rows, envs)
    ensures rows == [] <==> forall e <- envs :: LiveIn(w, e) == FileIn(w, e)
  {
    forall e <- envs ensures RowsOf(rows, e) == [] <==> LiveIn(w, e) == FileIn(w, e) {
      assert EnvDone(w, rows, e);
      NoChangesIffEqual(e, LiveIn(w, e), FileIn(w, e), RowsOf(rows, e));
    }
    if rows != [] {
      var last := rows[|rows| - 1];
      assert RowsOf(rows, last.environment) != [];
    }
  }
}
