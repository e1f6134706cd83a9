/** One attempt of a PUT or PATCH on the Secret as it was read: list its variables, let the handler change the list,
    check the names, and build and compare the Secret to write.  Proved to be the decision that the runs of
    EnvOwnership fold. */
module EnvSecret {
  import opened Options
  import opened Ordering
  import opened ConflictRetry
  import opened EnvOwnership
  import opened EnvHandlers

  // ---- Reading ----

  predicate ByName(a: Env, b: Env) {
    StringLess(a.name, b.name)
  }

  lemma {:induction false} ByNameIsWeak()
    ensures StrictWeak(ByName)
  {
    StringLessTotal();
    TotalIsWeak(StringLess);
    forall a, b, c | ByName(a, c) ensures ByName(a, b) || ByName(b, c) {
      assert StringLess(a.name, b.name) || StringLess(b.name, c.name);
    }
    forall a, b | ByName(a, b) ensures !ByName(b, a) {
      assert !StringLess(b.name, a.name);
    }
  }

  lemma {:induction false} DistinctNamesDiffer(envs: seq<Env>)
    requires DistinctNames(envs)
    ensures NoDuplicates(envs)
  {
  }

  lemma {:induction false} ShuffledIsDistinct(a: seq<Env>, b: seq<Env>)
    requires DistinctNames(a) && multiset(a) == multiset(b)
    ensures DistinctNames(b)
  {
    DistinctNamesDiffer(a);
    DistinctMultiset(a);
    forall i, j | 0 <= i < j < |b| ensures b[i].name != b[j].name {
      assert b[i] in multiset(a) && b[j] in multiset(a);
      var k :| 0 <= k < |a| && a[k] == b[i];
      var l :| 0 <= l < |a| && a[l] == b[j];
      if b[i] == b[j] {
        TwiceInMultiset(b, i, j);
      } else {
        assert k != l;
      }
    }
  }

  lemma {:induction false} ListedIn(envs: seq<Env>, k: string)
    requires DistinctNames(envs) && k in ContentsOf(envs)
    ensures Env(k, ContentsOf(envs)[k].value, ContentsOf(envs)[k].source) in envs
  {
    ContentsHas(envs, k);
    var i :| 0 <= i < |envs| && envs[i].name == k;
    ContentsAt(envs, i);
  }

  lemma {:induction false} ListedGives(envs: seq<Env>, e: Env)
    requires DistinctNames(envs) && e in envs
    ensures e.name in ContentsOf(envs) && ContentsOf(envs)[e.name] == Entry(e.value, e.source)
  {
    var i :| 0 <= i < |envs| && envs[i] == e;
    ContentsAt(envs, i);
  }

  /** The order of a list without repeated names is irrelevant. */
  lemma {:induction false} OrderIsIrrelevant(a: seq<Env>, b: seq<Env>)
    requires DistinctNames(a) && DistinctNames(b) && multiset(a) == multiset(b)
    ensures ContentsOf(a) == ContentsOf(b)
  {
    var x, y := ContentsOf(a), ContentsOf(b);
    forall k ensures k in x ==> k in y && y[k] == x[k] {
      if k in x {
        ListedIn(a, k);
        assert Env(k, x[k].value, x[k].source) in multiset(b);
        ListedGives(b, Env(k, x[k].value, x[k].source));
      }
    }
    forall k ensures k in y ==> k in x {
      if k in y {
        ListedIn(b, k);
        assert Env(k, y[k].value, y[k].source) in multiset(a);
        ListedGives(a, Env(k, y[k].value, y[k].source));
      }
    }
    assert x.Keys == y.Keys;
  }

  /** The Secret's variables by name: each once, with its value and the source its annotations give it, whatever order
      the data is walked in. */
  method SecretToEnvs(s: Secret) returns (envs: seq<Env>)
    ensures DistinctNames(envs) && ContentsOf(envs) == Read(s)
    ensures forall i, j | 0 <= i < j < |envs| :: StringLess(envs[i].name, envs[j].name)
  {
    var found: seq<Env> := [];
    var rest := s.data.Keys;
    while rest != {}
      invariant rest <= s.data.Keys
      invariant DistinctNames(found) && ContentsOf(found) == Read(s) - rest
      decreases rest
    {
      var k :| k in rest;
      var source := "user";
      if k in s.binding {
        source := "binding";
      } else if k in s.generated {
        source := "generated";
      } else if k in s.shared {
        source := "shared";
      } else if k in s.retained {
        source := "retained";
      }
      AppendOther(found, Env(k, s.data[k], source));
      ReadNext(s, rest, k);
      found := found + [Env(k, s.data[k], source)];
      rest := rest - {k};
    }
    envs := Sort(ByName, found);
    SortedByName(found);
  }

  lemma {:induction false} ReadNext(s: Secret, rest: set<string>, k: string)
    requires k in rest && rest <= s.data.Keys
    ensures k !in Read(s) - rest
    ensures Read(s) - (rest - {k}) == (Read(s) - rest)[k := Entry(s.data[k], SourceIn(s, k))]
  {
  }

  lemma {:induction false} SortedByName(found: seq<Env>)
    requires DistinctNames(found)
    ensures var envs := Sort(ByName, found);
            && DistinctNames(envs) && ContentsOf(envs) == ContentsOf(found)
            && forall i, j | 0 <= i < j < |envs| :: StringLess(envs[i].name, envs[j].name)
  {
    var envs := Sort(ByName, found);
    ByNameIsWeak();
    SortSortsWeakly(ByName, found);
    ShuffledIsDistinct(found, envs);
    OrderIsIrrelevant(found, envs);
    StringLessTotal();
    forall i, j | 0 <= i < j < |envs| ensures StringLess(envs[i].name, envs[j].name) {
      assert !ByName(envs[j], envs[i]);
    }
  }

  // ---- Writing ----

  /** The names listed with a source. */
  function Named(envs: seq<Env>, source: string): set<string> {
    set i | 0 <= i < |envs| && envs[i].source == source :: envs[i].name
  }

  lemma {:induction false} NamedNext(envs: seq<Env>, i: nat, source: string)
    requires i < |envs|
    ensures Named(envs[..i + 1], source) == Named(envs[..i], source) + if envs[i].source == source then {envs[i].name}
              else {}
  {
    assert envs[..i + 1] == envs[..i] + [envs[i]];
    forall k ensures k in Named(envs[..i + 1], source)
                     <==> k in Named(envs[..i], source) || (envs[i].source == source && k == envs[i].name)
    {
      if j :| 0 <= j < i && envs[j].source == source && envs[j].name == k {
        assert envs[..i][j] == envs[j] == envs[..i + 1][j];
      }
      if envs[i].source == source && k == envs[i].name {
        assert envs[..i + 1][i] == envs[i];
      }
    }
  }

  function Values(c: Contents): map<string, string> {
    map k | k in c :: c[k].value
  }

  lemma {:induction false} SourceOf(envs: seq<Env>, i: nat)
    requires SameSources(envs) && i < |envs|
    ensures envs[i].name in ContentsOf(envs) && ContentsOf(envs)[envs[i].name].source == envs[i].source
    decreases |envs|
  {
    if i < |envs| - 1 {
      SourceOf(envs[..|envs| - 1], i);
    }
  }

  lemma {:induction false} NamedIsSource(envs: seq<Env>, source: string)
    requires SameSources(envs)
    ensures Named(envs, source) == set k | k in ContentsOf(envs) && ContentsOf(envs)[k].source == source
  {
    forall k ensures k in Named(envs, source) <==> k in ContentsOf(envs) && ContentsOf(envs)[k].source == source {
      if k in Named(envs, source) {
        var i :| 0 <= i < |envs| && envs[i].source == source && envs[i].name == k;
        SourceOf(envs, i);
      }
      if k in ContentsOf(envs) {
        ContentsHas(envs, k);
        var i :| 0 <= i < |envs| && envs[i].name == k;
        SourceOf(envs, i);
      }
    }
  }

  /** A list that gives no name two sources is written as the Secret of its contents, a repeated name with its last
      value. */
  method BuildSecret(envs: seq<Env>) returns (s: Secret)
    requires SameSources(envs)
    ensures s == Build(ContentsOf(envs))
  {
    var data: map<string, string> := map[];
    var binding, generated, shared, retained: set<string> := {}, {}, {}, {};
    for i := 0 to |envs|
      invariant data == Values(ContentsOf(envs[..i]))
      invariant binding == Named(envs[..i], "binding") && generated == Named(envs[..i], "generated")
      invariant shared == Named(envs[..i], "shared") && retained == Named(envs[..i], "retained")
    {
      var e := envs[i];
      PrefixContents(envs, i);
      NamedNext(envs, i, "binding");
      NamedNext(envs, i, "generated");
      NamedNext(envs, i, "shared");
      NamedNext(envs, i, "retained");
      data := data[e.name := e.value];
      if e.source == "binding" {
        binding := binding + {e.name};
      } else if e.source == "generated" {
        generated := generated + {e.name};
      } else if e.source == "shared" {
        shared := shared + {e.name};
      } else if e.source == "retained" {
        retained := retained + {e.name};
      }
    }
    assert envs[..|envs|] == envs;
    NamedIsSource(envs, "binding");
    NamedIsSource(envs, "generated");
    NamedIsSource(envs, "shared");
    NamedIsSource(envs, "retained");
    s := Secret(data, binding, generated, shared, retained);
  }

  method ValidateEnvVars(envs: seq<Env>) returns (ok: bool)
    ensures ok <==> ValidNames(ContentsOf(envs))
  {
    for i := 0 to |envs|
      invariant forall j | 0 <= j < i :: ValidName(envs[j].name)
    {
      if !ValidName(envs[i].name) {
        ContentsHas(envs, envs[i].name);
        return false;
      }
    }
    forall k <- ContentsOf(envs).Keys ensures ValidName(k) {
      ContentsHas(envs, k);
    }
    ok := true;
  }

  lemma {:induction false} SubsetOfSameSize(a: set<string>, b: set<string>)
    requires a <= b && |a| == |b|
    ensures a == b
  {
    assert b == a + (b - a);
  }

  /** Equal sizes and every desired pair present: the maps are equal. */
  method SecretDataEqual(existing: map<string, string>, desired: map<string, string>) returns (same: bool)
    ensures same <==> existing == desired
  {
    if |existing| != |desired| {
      return false;
    }
    var rest := desired.Keys;
    while rest != {}
      invariant rest <= desired.Keys
      invariant forall k <- desired.Keys - rest :: k in existing && existing[k] == desired[k]
      decreases rest
    {
      var k :| k in rest;
      if k !in existing || existing[k] != desired[k] {
        return false;
      }
      rest := rest - {k};
    }
    SubsetOfSameSize(desired.Keys, existing.Keys);
    same := true;
  }

  /** What becomes of the list a handler returned. */
  function WrittenBack(stored: Option<Secret>, c: Contents): Verdict<Secret> {
    if !ValidNames(c) then Refuse
    else if stored.Some? && stored.value.data == Build(c).data && NoControllerKeys(stored.value) &&
        NoControllerKeys(Build(c)) then Keep
    else Write(Build(c))
  }

  method WriteBack(stored: Option<Secret>, envs: seq<Env>) returns (v: Verdict<Secret>)
    requires SameSources(envs)
    ensures v == WrittenBack(stored, ContentsOf(envs))
  {
    var ok := ValidateEnvVars(envs);
    if !ok {
      return Refuse;
    }
    var desired := BuildSecret(envs);
    if stored.None? {
      return Write(desired);
    }
    var changed := SecretDataEqual(stored.value.data, desired.data);
    changed := !changed || !NoControllerKeys(stored.value) || !NoControllerKeys(desired);
    v := if changed then Write(desired) else Keep;
  }

  method Current(stored: Option<Secret>) returns (envs: seq<Env>)
    ensures DistinctNames(envs) && ContentsOf(envs) == Held(stored)
  {
    if stored.None? {
      return [];
    }
    envs := SecretToEnvs(stored.value);
  }

  /** The reported names are exactly those that come and go. */
  lemma {:induction false} ReportedNames(cur: Contents, decl: Declared, vars: seq<Var>, k: string)
    requires !PutRefused(cur, decl, vars)
    ensures k in Read(Build(PutContents(cur, decl, vars)))
            <==> (k in cur && k !in Omitted(cur, decl, vars)) || (k in Sent(vars) && k !in cur)
  {
    PutDomain(cur, decl, vars);
    var next := PutContents(cur, decl, vars);
    assert k in next.Keys - cur.Keys <==> k in Sent(vars).Keys - cur.Keys;
    assert k in cur.Keys - next.Keys <==> k in Omitted(cur, decl, vars);
  }

  /** An attempt of a PUT, with the names it reports, decides as the rules say. */
  method AttemptPut(stored: Option<Secret>, decl: Declared, vars: seq<Var>)
      returns (v: Verdict<Secret>, added: seq<string>, removed: seq<string>)
    ensures v == Decide(decl, stored, Replace(vars))
    ensures v.Write? ==> forall k :: k in Read(v.value) <==>
              (k in Held(stored) && k !in removed) || k in added
  {
    var envs := Current(stored);
    var r;
    r, added, removed := PutEnv(envs, decl, vars);
    if r.Conflict? {
      return Refuse, added, removed;
    }
    v := WriteBack(stored, r.envs);
    if v.Write? {
      forall k ensures k in Read(v.value) <==> (k in Held(stored) && k !in removed) || k in added {
        ReportedNames(Held(stored), decl, vars, k);
      }
    }
  }

  /** An attempt of a PATCH decides as the rules say. */
  method AttemptPatch(stored: Option<Secret>, decl: Declared, sets: map<string, string>, unset: seq<string>)
      returns (v: Verdict<Secret>)
    ensures v == Decide(decl, stored, Patch(sets, set i | 0 <= i < |unset| :: unset[i]))
  {
    var envs := Current(stored);
    var r := PatchEnv(envs, decl, sets, unset);
    if r.Conflict? {
      return Refuse;
    }
    v := WriteBack(stored, r.envs);
  }
}
