/** The loops of the env-var handlers, proved to compute what EnvOwnership gives them to mean. */
module EnvHandlers {
  import opened Options
  import opened EnvOwnership

  datatype Env = Env(name: string, value: string, source: string)

  datatype Attempt = Accepted(envs: seq<Env>) | Conflict(name: string)

  predicate DistinctNames(envs: seq<Env>) {
    forall i, j | 0 <= i < j < |envs| :: envs[i].name != envs[j].name
  }

  /** No name is listed with two sources. */
  predicate SameSources(envs: seq<Env>) {
    forall i, j | 0 <= i < j < |envs| :: envs[i].name == envs[j].name ==> envs[i].source == envs[j].source
  }

  /** The contents of a list; under a repeated name the last entry counts. */
  function ContentsOf(envs: seq<Env>): Contents
    decreases |envs|
  {
    if envs == [] then map[] else
    var last := envs[|envs| - 1];
    ContentsOf(envs[..|envs| - 1])[last.name := Entry(last.value, last.source)]
  }

  lemma {:induction false} ContentsSnoc(envs: seq<Env>, e: Env)
    ensures ContentsOf(envs + [e]) == ContentsOf(envs)[e.name := Entry(e.value, e.source)]
  {
    assert (envs + [e])[..|envs|] == envs;
  }

  lemma {:induction false} ContentsHas(envs: seq<Env>, k: string)
    ensures k in ContentsOf(envs) <==> exists i | 0 <= i < |envs| :: envs[i].name == k
    decreases |envs|
  {
    if envs != [] {
      var front := envs[..|envs| - 1];
      ContentsHas(front, k);
      if i :| 0 <= i < |front| && front[i].name == k {
        assert envs[i].name == k;
      }
      if envs[|envs| - 1].name == k {
        assert k in ContentsOf(envs);
      }
      if i :| 0 <= i < |envs| && envs[i].name == k && i < |front| {
        assert front[i].name == k;
      }
    }
  }

  lemma {:induction false} ContentsAt(envs: seq<Env>, i: nat)
    requires DistinctNames(envs) && i < |envs|
    ensures envs[i].name in ContentsOf(envs)
    ensures ContentsOf(envs)[envs[i].name] == Entry(envs[i].value, envs[i].source)
    decreases |envs|
  {
    if i < |envs| - 1 {
      ContentsAt(envs[..|envs| - 1], i);
    }
  }

  lemma {:induction false} ContentsUpdate(envs: seq<Env>, i: nat, e: Env)
    requires DistinctNames(envs) && i < |envs| && e.name == envs[i].name
    ensures ContentsOf(envs[i := e]) == ContentsOf(envs)[e.name := Entry(e.value, e.source)]
    decreases |envs|
  {
    var n := |envs| - 1;
    var front := envs[..n];
    if i == n {
      assert envs[i := e][..n] == front;
    } else {
      ContentsUpdate(front, i, e);
      assert envs[i := e][..n] == front[i := e];
    }
  }

  // ---- Spec declarations ----

  datatype SpecVar = SpecVar(name: string, fromBinding: Option<(string, string)>, secretRef: string)
  datatype EnvSpec = EnvSpec(name: string, vars: seq<SpecVar>)

  predicate IsBinding(v: SpecVar) {
    v.fromBinding.Some?
  }

  predicate IsSecretRef(v: SpecVar) {
    v.secretRef != ""
  }

  predicate IsReference(v: SpecVar) {
    IsBinding(v) || IsSecretRef(v)
  }

  /** Only the first environment of that name counts. */
  function VarsOf(specs: seq<EnvSpec>, env: string): seq<SpecVar> {
    if specs == [] then [] else if specs[0].name == env then specs[0].vars else VarsOf(specs[1..], env)
  }

  function DeclaredBy(vars: seq<SpecVar>): map<string, string>
    decreases |vars|
  {
    if vars == [] then map[] else
    var before, v := DeclaredBy(vars[..|vars| - 1]), vars[|vars| - 1];
    if IsBinding(v) then before[v.name := "binding"]
    else if IsSecretRef(v) then before[v.name := "secret reference"]
    else before
  }

  method FindSpec(specs: seq<EnvSpec>, env: string) returns (vars: seq<SpecVar>)
    ensures vars == VarsOf(specs, env)
  {
    for i := 0 to |specs|
      invariant VarsOf(specs, env) == VarsOf(specs[i..], env)
    {
      if specs[i].name == env {
        return specs[i].vars;
      }
      assert specs[i..][1..] == specs[i + 1..];
    }
    vars := [];
  }

  method DeclarativeEnvSources(specs: seq<EnvSpec>, env: string) returns (sources: map<string, string>)
    ensures sources == DeclaredBy(VarsOf(specs, env))
  {
    sources := map[];
    var vars := FindSpec(specs, env);
    for j := 0 to |vars|
      invariant sources == DeclaredBy(vars[..j])
    {
      assert vars[..j + 1][..j] == vars[..j];
      if vars[j].fromBinding.Some? {
        sources := sources[vars[j].name := "binding"];
      } else if vars[j].secretRef != "" {
        sources := sources[vars[j].name := "secret reference"];
      }
    }
    assert vars[..|vars|] == vars;
  }

  /** Where a name is last listed in the wanted way. */
  function LastOf(vars: seq<SpecVar>, k: string, want: SpecVar -> bool): (i: int)
    ensures -1 <= i < |vars|
    ensures i >= 0 ==> vars[i].name == k && want(vars[i])
    ensures forall j | i < j < |vars| :: !(vars[j].name == k && want(vars[j]))
    decreases |vars|
  {
    if vars == [] then -1
    else if vars[|vars| - 1].name == k && want(vars[|vars| - 1]) then |vars| - 1
    else
      var front := vars[..|vars| - 1];
      assert forall j | 0 <= j < |front| :: front[j] == vars[j];
      LastOf(front, k, want)
  }

  lemma {:induction false} DeclaredIsLast(vars: seq<SpecVar>, k: string)
    ensures k in DeclaredBy(vars) <==> LastOf(vars, k, IsReference) >= 0
    ensures k in DeclaredBy(vars) ==>
              DeclaredBy(vars)[k] == if IsBinding(vars[LastOf(vars, k, IsReference)]) then "binding"
                  else "secret reference"
    decreases |vars|
  {
    if vars != [] {
      DeclaredIsLast(vars[..|vars| - 1], k);
    }
  }

  /** A name is declared exactly when the environment's own spec lists it with a reference, and the label is that of the
      last such listing, a binding winning over a secret reference in it. */
  lemma {:induction false} DeclaredByReference(vars: seq<SpecVar>, k: string)
    ensures k in DeclaredBy(vars) <==> exists i | 0 <= i < |vars| :: vars[i].name == k && IsReference(vars[i])
    ensures k in DeclaredBy(vars) ==>
              var i := LastOf(vars, k, IsReference);
              i >= 0 && DeclaredBy(vars)[k] == if IsBinding(vars[i]) then "binding" else "secret reference"
  {
    DeclaredIsLast(vars, k);
    var last := LastOf(vars, k, IsReference);
    if last >= 0 {
      assert vars[last].name == k && IsReference(vars[last]);
    }
  }

  // ---- GET ----

  datatype Response = Response(name: string, value: string, source: string, redacted: bool, bindingRef: string,
      bindingKey: string, secretRef: string)

  function ResponseFor(e: Env, plaintext: bool, bindings: map<string, (string, string)>,
      secretRefs: map<string, string>): Response {
    Response(e.name, if plaintext then e.value else "", e.source, !plaintext,
             if e.name in bindings then bindings[e.name].0 else "",
             if e.name in bindings then bindings[e.name].1 else "",
             if e.name in secretRefs then secretRefs[e.name] else "")
  }

  function BindingsOf(vars: seq<SpecVar>): map<string, (string, string)>
    decreases |vars|
  {
    if vars == [] then map[] else
    var before, v := BindingsOf(vars[..|vars| - 1]), vars[|vars| - 1];
    if IsBinding(v) then before[v.name := v.fromBinding.value] else before
  }

  function SecretRefsOf(vars: seq<SpecVar>): map<string, string>
    decreases |vars|
  {
    if vars == [] then map[] else
    var before, v := SecretRefsOf(vars[..|vars| - 1]), vars[|vars| - 1];
    if IsSecretRef(v) then before[v.name := v.secretRef] else before
  }

  /** Each map holds, for the names listed in its way, what the last such listing says. */
  lemma {:induction false} LastReferenceShows(vars: seq<SpecVar>, k: string)
    ensures k in BindingsOf(vars) <==> LastOf(vars, k, IsBinding) >= 0
    ensures k in BindingsOf(vars) ==> Some(BindingsOf(vars)[k]) == vars[LastOf(vars, k, IsBinding)].fromBinding
    ensures k in SecretRefsOf(vars) <==> LastOf(vars, k, IsSecretRef) >= 0
    ensures k in SecretRefsOf(vars) ==> SecretRefsOf(vars)[k] == vars[LastOf(vars, k, IsSecretRef)].secretRef
    decreases |vars|
  {
    if vars != [] {
      LastReferenceShows(vars[..|vars| - 1], k);
    }
  }

  method References(vars: seq<SpecVar>)
      returns (bindings: map<string, (string, string)>, secretRefs: map<string, string>)
    ensures bindings == BindingsOf(vars) && secretRefs == SecretRefsOf(vars)
  {
    bindings, secretRefs := map[], map[];
    for j := 0 to |vars|
      invariant bindings == BindingsOf(vars[..j]) && secretRefs == SecretRefsOf(vars[..j])
    {
      assert vars[..j + 1][..j] == vars[..j];
      if vars[j].fromBinding.Some? {
        bindings := bindings[vars[j].name := vars[j].fromBinding.value];
      }
      if vars[j].secretRef != "" {
        secretRefs := secretRefs[vars[j].name := vars[j].secretRef];
      }
    }
    assert vars[..|vars|] == vars;
  }

  /** Every variable in order, with the references its environment's spec declares for it. */
  method GetEnv(envs: seq<Env>, plaintext: bool, specs: seq<EnvSpec>, env: string) returns (resp: seq<Response>)
    ensures |resp| == |envs|
    ensures forall i | 0 <= i < |envs| ::
              resp[i] == ResponseFor(envs[i], plaintext, BindingsOf(VarsOf(specs, env)),
                  SecretRefsOf(VarsOf(specs, env)))
  {
    var vars := FindSpec(specs, env);
    var bindings, secretRefs := References(vars);
    resp := [];
    for i := 0 to |envs|
      invariant |resp| == i
      invariant forall j | 0 <= j < i :: resp[j] == ResponseFor(envs[j], plaintext, bindings, secretRefs)
    {
      var ev := Response(envs[i].name, "", envs[i].source, false, "", "", "");
      if plaintext {
        ev := ev.(value := envs[i].value);
      } else {
        ev := ev.(redacted := true);
      }
      if envs[i].name in bindings {
        ev := ev.(bindingRef := bindings[envs[i].name].0, bindingKey := bindings[envs[i].name].1);
      }
      if envs[i].name in secretRefs {
        ev := ev.(secretRef := secretRefs[envs[i].name]);
      }
      resp := resp + [ev];
    }
  }

  function SentBack(envs: seq<Env>): seq<Var> {
    seq(|envs|, i requires 0 <= i < |envs| => Var(envs[i].name, envs[i].value))
  }

  function Blanked(e: Entry, declared: bool): Entry {
    if e.source == "" && !declared then e.(source := "user") else e
  }

  lemma {:induction false} SentBackMeaning(envs: seq<Env>, k: string)
    requires DistinctNames(envs)
    ensures k in Sent(SentBack(envs)) <==> k in ContentsOf(envs)
    ensures k in ContentsOf(envs) ==> Sent(SentBack(envs))[k] == ContentsOf(envs)[k].value
    decreases |envs|
  {
    if envs != [] {
      var front := envs[..|envs| - 1];
      SentBackMeaning(front, k);
      assert SentBack(envs)[..|front|] == SentBack(front);
    }
  }

  /** Sending a plaintext GET back by PUT is never refused and changes no name and no value; a
      blank source becomes the user's. */
  lemma {:induction false} GetThenPut(envs: seq<Env>, decl: Declared)
    requires DistinctNames(envs)
    ensures !PutRefused(ContentsOf(envs), decl, SentBack(envs))
    ensures var c := ContentsOf(envs);
            PutContents(c, decl, SentBack(envs)) == map k | k in c :: Blanked(c[k], k in decl)
  {
    var c, vars := ContentsOf(envs), SentBack(envs);
    forall i | 0 <= i < |vars| ensures Restates(c, vars[i].name, vars[i].value) {
      ContentsAt(envs, i);
    }
    forall k ensures k in Sent(vars) <==> k in c
      ensures k in c ==> Sent(vars)[k] == c[k].value
    {
      SentBackMeaning(envs, k);
    }
  }

  /** A redacted response does not depend on the values. */
  lemma {:induction false} RedactionHidesValues(a: Env, b: Env, bindings: map<string, (string, string)>,
      secretRefs: map<string, string>)
    requires a.name == b.name && a.source == b.source
    ensures ResponseFor(a, false, bindings, secretRefs) == ResponseFor(b, false, bindings, secretRefs)
  {
  }

  // ---- PUT ----

  function NamesOf(envs: seq<Env>): set<string> {
    set i | 0 <= i < |envs| :: envs[i].name
  }

  /** The protected names that are sent with their current value, unless one is sent with another. */
  method CheckSent(existing: seq<Env>, decl: Declared, vars: seq<Var>)
      returns (tolerated: set<string>, offender: Option<string>)
    requires DistinctNames(existing)
    ensures offender.Some? <==> PutRefused(ContentsOf(existing), decl, vars)
    ensures offender.Some? ==> Protected(ContentsOf(existing), decl, offender.value)
    ensures offender.None? ==> forall j | 0 <= j < |vars| ::
              vars[j].name in tolerated <==> Protected(ContentsOf(existing), decl, vars[j].name)
  {
    ghost var cur := ContentsOf(existing);
    tolerated, offender := {}, None;
    for i := 0 to |vars|
      invariant forall j | 0 <= j < i :: Protected(cur, decl, vars[j].name) ==>
                  Restates(cur, vars[j].name, vars[j].value)
      invariant forall j | 0 <= j < i :: Protected(cur, decl, vars[j].name) ==> vars[j].name in tolerated
      invariant forall k <- tolerated :: Protected(cur, decl, k)
    {
      var v := vars[i];
      var known, e := Find(existing, v.name);
      if v.name in decl || (known && !UserOwned(e.source)) {
        if known && e.value == v.value {
          tolerated := tolerated + {v.name};
        } else {
          return tolerated, Some(v.name);
        }
      }
    }
  }

  /** The replacement callback: conflict check, then protected entries followed by the sent ones. */
  method PutEnv(existing: seq<Env>, decl: Declared, vars: seq<Var>)
      returns (r: Attempt, added: seq<string>, removed: seq<string>)
    requires DistinctNames(existing)
    ensures r.Conflict? <==> PutRefused(ContentsOf(existing), decl, vars)
    ensures r.Conflict? ==> Protected(ContentsOf(existing), decl, r.name)
    ensures r.Accepted? ==> ContentsOf(r.envs) == PutContents(ContentsOf(existing), decl, vars) && SameSources(r.envs)
    ensures forall k :: k in removed <==> k in Omitted(ContentsOf(existing), decl, vars)
    ensures forall k :: k in added <==> k in Sent(vars) && k !in ContentsOf(existing)
  {
    ghost var cur := ContentsOf(existing);
    var incoming := set i | 0 <= i < |vars| :: vars[i].name;
    removed := FindRemoved(existing, decl, vars, incoming);
    added := FindAdded(existing, vars);

    var tolerated, offender := CheckSent(existing, decl, vars);
    if offender.Some? {
      r := Conflict(offender.value);
      return;
    }

    var merged := KeepProtected(existing, decl);
    for i := 0 to |vars|
      invariant ContentsOf(merged) == WithSent(Kept(cur, decl), cur, decl, vars[..i])
      invariant SourcesByName(merged, cur, decl)
    {
      assert vars[..i + 1][..i] == vars[..i];
      if vars[i].name !in tolerated {
        ContentsSnoc(merged, Env(vars[i].name, vars[i].value, "user"));
        merged := merged + [Env(vars[i].name, vars[i].value, "user")];
      }
    }
    assert vars[..|vars|] == vars;
    WithSentIsPut(cur, decl, vars);
    r := Accepted(merged);
  }

  /** Every listed source is the one the rules give to the name. */
  ghost predicate SourcesByName(envs: seq<Env>, cur: Contents, decl: Declared) {
    forall i | 0 <= i < |envs| ::
      if Protected(cur, decl, envs[i].name) then envs[i].name in cur && envs[i].source == cur[envs[i].name].source
      else envs[i].source == "user"
  }

  function Kept(cur: Contents, decl: Declared): Contents {
    map k | k in cur && Protected(cur, decl, k) :: cur[k]
  }

  function WithSent(base: Contents, cur: Contents, decl: Declared, vars: seq<Var>): Contents
    decreases |vars|
  {
    if vars == [] then base else
    var before, v := WithSent(base, cur, decl, vars[..|vars| - 1]), vars[|vars| - 1];
    if Protected(cur, decl, v.name) then before else before[v.name := Entry(v.value, "user")]
  }

  lemma {:induction false} WithSentAt(base: Contents, cur: Contents, decl: Declared, vars: seq<Var>, k: string)
    ensures var r := WithSent(base, cur, decl, vars);
            if k in Sent(vars) && !Protected(cur, decl, k) then k in r && r[k] == Entry(Sent(vars)[k], "user")
            else (k in r) == (k in base) && (k in base ==> r[k] == base[k])
    decreases |vars|
  {
    if vars != [] {
      WithSentAt(base, cur, decl, vars[..|vars| - 1], k);
    }
  }

  lemma {:induction false} WithSentIsPut(cur: Contents, decl: Declared, vars: seq<Var>)
    requires !PutRefused(cur, decl, vars)
    ensures WithSent(Kept(cur, decl), cur, decl, vars) == PutContents(cur, decl, vars)
  {
    var a, b := WithSent(Kept(cur, decl), cur, decl, vars), PutContents(cur, decl, vars);
    forall k ensures (k in a) == (k in b) && (k in a ==> a[k] == b[k]) {
      WithSentAt(Kept(cur, decl), cur, decl, vars, k);
      SentHas(vars, k);
    }
    assert a.Keys == b.Keys;
  }

  method Find(envs: seq<Env>, name: string) returns (known: bool, e: Env)
    requires DistinctNames(envs)
    ensures known == (name in ContentsOf(envs))
    ensures known ==> e.name == name && ContentsOf(envs)[name] == Entry(e.value, e.source)
  {
    known, e := false, Env("", "", "");
    ContentsHas(envs, name);
    for i := 0 to |envs|
      invariant forall j | 0 <= j < i :: envs[j].name != name
    {
      if envs[i].name == name {
        ContentsAt(envs, i);
        return true, envs[i];
      }
    }
  }

  method FindRemoved(existing: seq<Env>, decl: Declared, vars: seq<Var>, incoming: set<string>)
      returns (removed: seq<string>)
    requires DistinctNames(existing) && incoming == set i | 0 <= i < |vars| :: vars[i].name
    ensures forall k :: k in removed <==> k in Omitted(ContentsOf(existing), decl, vars)
  {
    ghost var cur := ContentsOf(existing);
    removed := [];
    for i := 0 to |existing|
      invariant forall k :: k in removed <==>
                  exists j | 0 <= j < i :: existing[j].name == k && UserOwned(existing[j].source) && k !in decl &&
                      k !in incoming
    {
      if UserOwned(existing[i].source) && existing[i].name !in decl && existing[i].name !in incoming {
        removed := removed + [existing[i].name];
      }
    }
    forall k ensures k in removed <==> k in Omitted(cur, decl, vars) {
      ContentsHas(existing, k);
      SentHas(vars, k);
      if k in cur {
        var j :| 0 <= j < |existing| && existing[j].name == k;
        ContentsAt(existing, j);
      }
    }
  }

  method FindAdded(existing: seq<Env>, vars: seq<Var>) returns (added: seq<string>)
    ensures forall k :: k in added <==> k in Sent(vars) && k !in ContentsOf(existing)
  {
    var existingNames := NamesOf(existing);
    added := [];
    for i := 0 to |vars|
      invariant forall k :: k in added <==> k !in existingNames && exists j | 0 <= j < i :: vars[j].name == k
    {
      if vars[i].name !in existingNames {
        added := added + [vars[i].name];
      }
    }
    forall k ensures k in added <==> k in Sent(vars) && k !in ContentsOf(existing) {
      ContentsHas(existing, k);
      SentHas(vars, k);
    }
  }

  ghost function KeptOf(part: Contents, cur: Contents, decl: Declared): Contents {
    map k | k in part && Protected(cur, decl, k) :: part[k]
  }

  lemma {:induction false} KeepNext(existing: seq<Env>, i: nat, merged: seq<Env>, decl: Declared)
    requires DistinctNames(existing) && i < |existing|
    requires ContentsOf(merged) == KeptOf(ContentsOf(existing[..i]), ContentsOf(existing), decl)
    ensures var e := existing[i];
            ContentsOf(if !UserOwned(e.source) || e.name in decl then merged + [e] else merged)
            == KeptOf(ContentsOf(existing[..i + 1]), ContentsOf(existing), decl)
  {
    var e := existing[i];
    NotYet(existing, i);
    ContentsAt(existing, i);
    PrefixContents(existing, i);
    KeptNext(ContentsOf(existing[..i]), ContentsOf(existing), decl, e.name);
    ContentsSnoc(merged, e);
  }

  lemma {:induction false} PrefixContents(envs: seq<Env>, i: nat)
    requires i < |envs|
    ensures ContentsOf(envs[..i + 1]) == ContentsOf(envs[..i])[envs[i].name := Entry(envs[i].value, envs[i].source)]
  {
    assert envs[..i + 1] == envs[..i] + [envs[i]];
    ContentsSnoc(envs[..i], envs[i]);
  }

  lemma {:induction false} KeptNext(part: Contents, cur: Contents, decl: Declared, n: string)
    requires n in cur && n !in part
    ensures KeptOf(part[n := cur[n]], cur, decl) == if Protected(cur, decl, n) then KeptOf(part, cur, decl)[n := cur[n]]
              else KeptOf(part, cur, decl)
  {
  }

  method KeepProtected(existing: seq<Env>, decl: Declared) returns (merged: seq<Env>)
    requires DistinctNames(existing)
    ensures ContentsOf(merged) == Kept(ContentsOf(existing), decl)
    ensures SourcesByName(merged, ContentsOf(existing), decl)
  {
    merged := [];
    for i := 0 to |existing|
      invariant SourcesByName(merged, ContentsOf(existing), decl)
      invariant ContentsOf(merged) == KeptOf(ContentsOf(existing[..i]), ContentsOf(existing), decl)
    {
      KeepNext(existing, i, merged, decl);
      ContentsAt(existing, i);
      if !UserOwned(existing[i].source) || existing[i].name in decl {
        merged := merged + [existing[i]];
      }
    }
    assert existing[..|existing|] == existing;
  }

  // ---- PATCH ----

  /** The names to unset, unless one of them is protected. */
  method CheckUnsets(existing: seq<Env>, decl: Declared, unset: seq<string>)
      returns (names: set<string>, bad: Option<string>)
    requires DistinctNames(existing)
    ensures var all := set i | 0 <= i < |unset| :: unset[i];
            && (bad.None? ==> names == all && forall k <- all :: !Protected(ContentsOf(existing), decl, k))
            && (bad.Some? ==> bad.value in all && Protected(ContentsOf(existing), decl, bad.value))
  {
    ghost var cur := ContentsOf(existing);
    ghost var all := set i | 0 <= i < |unset| :: unset[i];
    names := {};
    for i := 0 to |unset|
      invariant names == set j | 0 <= j < i :: unset[j]
      invariant forall j | 0 <= j < i :: unset[j] !in decl
    {
      if unset[i] in decl {
        assert unset[i] in all;
        return names, Some(unset[i]);
      }
      names := names + {unset[i]};
    }
    for i := 0 to |existing|
      invariant forall j | 0 <= j < i :: existing[j].name in names ==> UserOwned(existing[j].source)
    {
      if existing[i].name in names && !UserOwned(existing[i].source) {
        ContentsAt(existing, i);
        return names, Some(existing[i].name);
      }
    }
    forall k <- names ensures !Protected(cur, decl, k) {
      ContentsHas(existing, k);
      if k in cur {
        var i :| 0 <= i < |existing| && existing[i].name == k;
        ContentsAt(existing, i);
      }
    }
    bad := None;
  }

  /** Once the unsets are known to be allowed, checking the sets against what remains decides the patch, and
      overlaying the sets that are not tolerated carries it out. */
  lemma {:induction false} PatchBySets(cur: Contents, decl: Declared, sets: map<string, string>, names: set<string>)
    requires forall k <- names :: !Protected(cur, decl, k)
    ensures PatchRefused(cur, decl, sets, names)
            <==> exists k <- sets.Keys :: Protected(cur - names, decl, k) && !Restates(cur - names, k, sets[k])
    ensures !PatchRefused(cur, decl, sets, names) ==>
              Overlay(cur - names, sets, sets.Keys - set k | k in sets && Protected(cur - names, decl, k))
              == PatchContents(cur, decl, sets, names)
  {
    forall k ensures Protected(cur - names, decl, k) == Protected(cur, decl, k) {
    }
    forall k <- sets.Keys | Protected(cur, decl, k)
      ensures Restates(cur - names, k, sets[k]) == Restates(cur, k, sets[k])
    {
    }
  }

  /** The patch callback.  The maps are walked in an order of their own; whatever it is, the
      outcome is the same. */
  method PatchEnv(existing: seq<Env>, decl: Declared, sets: map<string, string>, unset: seq<string>)
      returns (r: Attempt)
    requires DistinctNames(existing)
    ensures var names := set i | 0 <= i < |unset| :: unset[i];
            && (r.Conflict? <==> PatchRefused(ContentsOf(existing), decl, sets, names))
            && (r.Conflict? ==> Protected(ContentsOf(existing), decl, r.name))
            && (r.Accepted? ==>
                  && ContentsOf(r.envs) == PatchContents(ContentsOf(existing), decl, sets, names)
                  && DistinctNames(r.envs))
  {
    var names, bad := CheckUnsets(existing, decl, unset);
    if bad.Some? {
      return Conflict(bad.value);
    }
    var kept := Without(existing, names);
    PatchBySets(ContentsOf(existing), decl, sets, names);
    var tolerated, offender := CheckSets(kept, decl, sets);
    if offender.Some? {
      return Conflict(offender.value);
    }
    var envs := ApplySets(kept, sets, tolerated);
    r := Accepted(envs);
  }

  lemma {:induction false} NotYet(envs: seq<Env>, i: nat)
    requires DistinctNames(envs) && i < |envs|
    ensures envs[i].name !in ContentsOf(envs[..i])
  {
    ContentsHas(envs[..i], envs[i].name);
  }

  lemma {:induction false} AppendOther(kept: seq<Env>, e: Env)
    requires DistinctNames(kept) && e.name !in ContentsOf(kept)
    ensures DistinctNames(kept + [e]) && ContentsOf(kept + [e]) == ContentsOf(kept)[e.name := Entry(e.value, e.source)]
  {
    ContentsSnoc(kept, e);
    ContentsHas(kept, e.name);
  }

  lemma {:induction false} WithoutNext(existing: seq<Env>, i: nat, kept: seq<Env>, names: set<string>)
    requires DistinctNames(existing) && i < |existing|
    requires DistinctNames(kept) && ContentsOf(kept) == ContentsOf(existing[..i]) - names
    ensures if existing[i].name in names then ContentsOf(kept) == ContentsOf(existing[..i + 1]) - names
            else
              && DistinctNames(kept + [existing[i]])
              && ContentsOf(kept + [existing[i]]) == ContentsOf(existing[..i + 1]) - names
  {
    var e := existing[i];
    NotYet(existing, i);
    PrefixContents(existing, i);
    WithoutPut(ContentsOf(existing[..i]), e.name, Entry(e.value, e.source), names);
    if e.name !in names {
      AppendOther(kept, e);
    }
  }

  lemma {:induction false} WithoutPut(part: Contents, n: string, v: Entry, names: set<string>)
    requires n !in part
    ensures part[n := v] - names == if n in names then part - names else (part - names)[n := v]
  {
  }

  method Without(existing: seq<Env>, names: set<string>) returns (kept: seq<Env>)
    requires DistinctNames(existing)
    ensures DistinctNames(kept)
    ensures ContentsOf(kept) == ContentsOf(existing) - names
  {
    kept := [];
    for i := 0 to |existing|
      invariant DistinctNames(kept)
      invariant ContentsOf(kept) == ContentsOf(existing[..i]) - names
    {
      WithoutNext(existing, i, kept, names);
      if existing[i].name !in names {
        kept := kept + [existing[i]];
      }
    }
    assert existing[..|existing|] == existing;
  }

  method CheckSets(kept: seq<Env>, decl: Declared, sets: map<string, string>)
      returns (tolerated: set<string>, offender: Option<string>)
    requires DistinctNames(kept)
    ensures offender.Some? <==>
            exists k <- sets.Keys :: Protected(ContentsOf(kept), decl, k) && !Restates(ContentsOf(kept), k, sets[k])
    ensures offender.Some? ==> offender.value in sets && Protected(ContentsOf(kept), decl, offender.value)
    ensures offender.None? ==> tolerated == set k | k in sets && Protected(ContentsOf(kept), decl, k)
  {
    ghost var cur := ContentsOf(kept);
    tolerated, offender := {}, None;
    var rest := sets.Keys;
    while rest != {}
      invariant rest <= sets.Keys
      invariant forall k <- sets.Keys - rest :: Protected(cur, decl, k) ==> Restates(cur, k, sets[k])
      invariant tolerated == set k | k in sets.Keys - rest && Protected(cur, decl, k)
      decreases rest
    {
      var k :| k in rest;
      var known, e := Find(kept, k);
      if k in decl || (known && !UserOwned(e.source)) {
        if known && e.value == sets[k] {
          tolerated := tolerated + {k};
        } else {
          offender := Some(k);
          return;
        }
      }
      rest := rest - {k};
    }
  }

  function Overlay(base: Contents, sets: map<string, string>, names: set<string>): Contents {
    base + map k | k in names && k in sets :: Entry(sets[k], "user")
  }

  lemma {:induction false} OverlayOne(base: Contents, sets: map<string, string>, names: set<string>, k: string)
    requires k in sets
    ensures Overlay(base, sets, names + {k}) == Overlay(base, sets, names)[k := Entry(sets[k], "user")]
  {
  }

  method ApplySets(kept: seq<Env>, sets: map<string, string>, tolerated: set<string>) returns (envs: seq<Env>)
    requires DistinctNames(kept)
    ensures DistinctNames(envs)
    ensures ContentsOf(envs) == Overlay(ContentsOf(kept), sets, sets.Keys - tolerated)
  {
    envs := kept;
    var rest := sets.Keys;
    while rest != {}
      invariant rest <= sets.Keys && DistinctNames(envs)
      invariant ContentsOf(envs) == Overlay(ContentsOf(kept), sets, sets.Keys - rest - tolerated)
      decreases rest
    {
      var k :| k in rest;
      ghost var done := sets.Keys - rest - tolerated;
      rest := rest - {k};
      if k !in tolerated {
        envs := SetOne(envs, k, sets[k]);
        OverlayOne(ContentsOf(kept), sets, done, k);
        assert sets.Keys - rest - tolerated == done + {k};
      } else {
        assert sets.Keys - rest - tolerated == done;
      }
    }
  }

  /** Overwrite the entry of that name in place, or append one. */
  method SetOne(envs: seq<Env>, k: string, v: string) returns (next: seq<Env>)
    requires DistinctNames(envs)
    ensures DistinctNames(next)
    ensures ContentsOf(next) == ContentsOf(envs)[k := Entry(v, "user")]
  {
    for i := 0 to |envs|
      invariant forall j | 0 <= j < i :: envs[j].name != k
    {
      if envs[i].name == k {
        ContentsUpdate(envs, i, Env(k, v, "user"));
        return envs[i := Env(k, v, "user")];
      }
    }
    ContentsSnoc(envs, Env(k, v, "user"));
    next := envs + [Env(k, v, "user")];
  }
}
