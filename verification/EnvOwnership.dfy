/** Who owns which environment variable, and what replacing or patching the set may do.

    The meaning of the two writes is given on the contents, a map from names to value and
    source; the laws below are about that meaning.  The handlers that compute it in loops
    are in EnvHandlers.
 */
module EnvOwnership {
  import opened Options
  import opened ConflictRetry

  datatype Entry = Entry(value: string, source: string)

  type Contents = map<string, Entry>

  /** A name and value sent by a client. */
  datatype Var = Var(name: string, value: string)

  /** The names declared by the App spec through a binding or a secret reference. */
  type Declared = set<string>

  datatype Request =
    | Replace(vars: seq<Var>)
    | Patch(sets: map<string, string>, unset: set<string>)

  predicate UserOwned(source: string) {
    source == "user" || source == ""
  }

  /** Declared by the spec, or written by the controller. */
  predicate Protected(cur: Contents, decl: Declared, k: string) {
    k in decl || (k in cur && !UserOwned(cur[k].source))
  }

  /** Restating the current value is tolerated. */
  predicate Restates(cur: Contents, k: string, v: string) {
    k in cur && cur[k].value == v
  }

  // ---- What the two writes mean ----

  predicate PutRefused(cur: Contents, decl: Declared, vars: seq<Var>) {
    exists i | 0 <= i < |vars| :: Protected(cur, decl, vars[i].name) && !Restates(cur, vars[i].name, vars[i].value)
  }

  /** The value the client sent last under a name. */
  function Sent(vars: seq<Var>): map<string, string>
    decreases |vars|
  {
    if vars == [] then map[] else Sent(vars[..|vars| - 1])[vars[|vars| - 1].name := vars[|vars| - 1].value]
  }

  function PutContents(cur: Contents, decl: Declared, vars: seq<Var>): Contents {
    var sent := Sent(vars);
    map k | k in cur.Keys + sent.Keys && (Protected(cur, decl, k) ==> k in cur) &&
        (k in sent || Protected(cur, decl, k)) ::
      if Protected(cur, decl, k) then cur[k] else Entry(sent[k], "user")
  }

  predicate PatchRefused(cur: Contents, decl: Declared, sets: map<string, string>, unset: set<string>) {
    || (exists k <- unset :: Protected(cur, decl, k))
    || (exists k <- sets.Keys :: Protected(cur, decl, k) && !Restates(cur, k, sets[k]))
  }

  function PatchContents(cur: Contents, decl: Declared, sets: map<string, string>, unset: set<string>): Contents {
    map k | k in cur.Keys + sets.Keys && (k in sets || k !in unset) &&
        (k in sets && k !in cur ==> !Protected(cur, decl, k)) ::
      if k in sets && !Protected(cur, decl, k) then Entry(sets[k], "user") else cur[k]
  }

  predicate Refused(cur: Contents, decl: Declared, r: Request) {
    match r
    case Replace(vars) => PutRefused(cur, decl, vars)
    case Patch(sets, unset) => PatchRefused(cur, decl, sets, unset)
  }

  function Apply(cur: Contents, decl: Declared, r: Request): Contents {
    match r
    case Replace(vars) => PutContents(cur, decl, vars)
    case Patch(sets, unset) => PatchContents(cur, decl, sets, unset)
  }

  /** A refused request changes nothing. */
  function Handled(cur: Contents, decl: Declared, r: Request): Contents {
    if Refused(cur, decl, r) then cur else Apply(cur, decl, r)
  }

  // ---- The laws ----

  /** Protected names keep their entry, or stay absent, under every accepted write; and no write
      makes an unprotected name protected. */
  lemma {:induction false} ProtectedNamesAreFixed(cur: Contents, decl: Declared, r: Request, k: string)
    requires !Refused(cur, decl, r)
    ensures Protected(Apply(cur, decl, r), decl, k) == Protected(cur, decl, k)
    ensures Protected(cur, decl, k) ==>
              if k in cur then k in Apply(cur, decl, r) && Apply(cur, decl, r)[k] == cur[k]
              else k !in Apply(cur, decl, r)
  {
    match r
    case Replace(vars) => SentHas(vars, k);
    case Patch(sets, unset) =>
      if k in unset {
        assert !Protected(cur, decl, k);
      }
      if k in sets {
        assert Protected(cur, decl, k) ==> Restates(cur, k, sets[k]);
      }
  }

  lemma {:induction false} SentHas(vars: seq<Var>, k: string)
    ensures k in Sent(vars) <==> exists i | 0 <= i < |vars| :: vars[i].name == k
    ensures k in Sent(vars) ==> exists i | 0 <= i < |vars| :: vars[i] == Var(k, Sent(vars)[k])
    decreases |vars|
  {
    if vars != [] {
      var front, last := vars[..|vars| - 1], vars[|vars| - 1];
      SentHas(front, k);
      if k in Sent(front) {
        var i :| 0 <= i < |front| && front[i] == Var(k, Sent(front)[k]);
        assert vars[i] == front[i];
      }
      if k == last.name {
        assert vars[|vars| - 1] == Var(k, Sent(vars)[k]);
      }
      if i :| 0 <= i < |vars| && vars[i].name == k && i < |front| {
        assert front[i].name == k;
      }
    }
  }

  predicate DuplicateFree(vars: seq<Var>) {
    forall i, j | 0 <= i < j < |vars| :: vars[i].name != vars[j].name
  }

  lemma {:induction false} SentDistinct(vars: seq<Var>, i: nat)
    requires DuplicateFree(vars) && i < |vars|
    ensures vars[i].name in Sent(vars) && Sent(vars)[vars[i].name] == vars[i].value
  {
    SentHas(vars, vars[i].name);
  }

  /** What a replacing client would have to unset by name. */
  function Omitted(cur: Contents, decl: Declared, vars: seq<Var>): set<string> {
    set k | k in cur && !Protected(cur, decl, k) && k !in Sent(vars)
  }

  /** Replacing with a duplicate-free list is the patch that sets it and unsets the user-owned
      names it omits: refused in the same cases and with the same result otherwise. */
  lemma {:induction false} PutIsPatch(cur: Contents, decl: Declared, vars: seq<Var>)
    requires DuplicateFree(vars)
    ensures Refused(cur, decl, Replace(vars)) == Refused(cur, decl, Patch(Sent(vars), Omitted(cur, decl, vars)))
    ensures !Refused(cur, decl, Replace(vars)) ==>
              Apply(cur, decl, Replace(vars)) == Apply(cur, decl, Patch(Sent(vars), Omitted(cur, decl, vars)))
  {
    var sets, unset := Sent(vars), Omitted(cur, decl, vars);
    if i :| 0 <= i < |vars| && Protected(cur, decl, vars[i].name) && !Restates(cur, vars[i].name, vars[i].value) {
      SentDistinct(vars, i);
      assert vars[i].name in sets.Keys;
    }
    forall k <- sets.Keys ensures exists i | 0 <= i < |vars| :: vars[i] == Var(k, sets[k]) {
      SentHas(vars, k);
    }
  }

  /** The reported key lists are the differences of the domains. */
  lemma {:induction false} PutDomain(cur: Contents, decl: Declared, vars: seq<Var>)
    requires !PutRefused(cur, decl, vars)
    ensures var next := PutContents(cur, decl, vars);
            && next.Keys - cur.Keys == Sent(vars).Keys - cur.Keys
            && cur.Keys - next.Keys == Omitted(cur, decl, vars)
  {
    forall k | k in Sent(vars) ensures Protected(cur, decl, k) ==> k in cur {
      SentHas(vars, k);
    }
  }

  /** The last replacement wins: what unprotected variables were there before is irrelevant. */
  lemma {:induction false} LastPutWins(cur: Contents, decl: Declared, before: Request, vars: seq<Var>)
    ensures Refused(Handled(cur, decl, before), decl, Replace(vars)) == Refused(cur, decl, Replace(vars))
    ensures !Refused(cur, decl, Replace(vars)) ==>
              Handled(Handled(cur, decl, before), decl, Replace(vars)) == Handled(cur, decl, Replace(vars))
  {
    if !Refused(cur, decl, before) {
      forall k
        ensures Protected(Apply(cur, decl, before), decl, k) == Protected(cur, decl, k)
        ensures Protected(cur, decl, k) ==>
                  if k in cur then k in Apply(cur, decl, before) && Apply(cur, decl, before)[k] == cur[k]
                  else k !in Apply(cur, decl, before)
      {
        ProtectedNamesAreFixed(cur, decl, before, k);
      }
      forall k | k in Sent(vars) && !PutRefused(cur, decl, vars) ensures Protected(cur, decl, k) ==> k in cur {
        SentHas(vars, k);
      }
    }
  }

  /** Repeating an accepted patch is accepted and changes nothing. */
  lemma {:induction false} PatchIdempotent(cur: Contents, decl: Declared, sets: map<string, string>, unset: set<string>)
    requires !PatchRefused(cur, decl, sets, unset)
    ensures var once := PatchContents(cur, decl, sets, unset);
            !PatchRefused(once, decl, sets, unset) && PatchContents(once, decl, sets, unset) == once
  {
    var once := PatchContents(cur, decl, sets, unset);
    forall k ensures Protected(once, decl, k) == Protected(cur, decl, k) {
      ProtectedNamesAreFixed(cur, decl, Patch(sets, unset), k);
    }
    forall k <- sets.Keys | Protected(cur, decl, k) ensures Restates(once, k, sets[k]) {
      ProtectedNamesAreFixed(cur, decl, Patch(sets, unset), k);
      assert Restates(cur, k, sets[k]);
    }
  }

  /** A patch neither reads nor writes any other name. */
  lemma {:induction false} PatchIsLocal(cur: Contents, decl: Declared, p: Request, k: string)
    requires p.Patch? && k !in p.sets.Keys + p.unset
    ensures (k in Handled(cur, decl, p)) == (k in cur)
    ensures k in cur ==> Handled(cur, decl, p)[k] == cur[k]
  {
  }

  lemma {:induction false} AgreeingPatches(a: Contents, b: Contents, decl: Declared, p: Request)
    requires p.Patch?
    requires forall k <- p.sets.Keys + p.unset :: (k in a) == (k in b) && (k in a ==> a[k] == b[k])
    ensures Refused(a, decl, p) == Refused(b, decl, p)
    ensures forall k <- p.sets.Keys + p.unset ::
              && (k in Handled(a, decl, p)) == (k in Handled(b, decl, p))
              && (k in Handled(a, decl, p) ==> Handled(a, decl, p)[k] == Handled(b, decl, p)[k])
  {
    forall k <- p.sets.Keys + p.unset ensures Protected(a, decl, k) == Protected(b, decl, k) {
    }
  }

  /** Patches on disjoint names commute, refusals included. */
  lemma {:induction false} DisjointPatchesCommute(cur: Contents, decl: Declared, p: Request, q: Request)
    requires p.Patch? && q.Patch? && (p.sets.Keys + p.unset) !! (q.sets.Keys + q.unset)
    ensures Handled(Handled(cur, decl, p), decl, q) == Handled(Handled(cur, decl, q), decl, p)
    ensures Refused(Handled(cur, decl, p), decl, q) == Refused(cur, decl, q)
  {
    var onP, onQ := p.sets.Keys + p.unset, q.sets.Keys + q.unset;
    var cp, cq := Handled(cur, decl, p), Handled(cur, decl, q);
    forall k <- onQ ensures (k in cp) == (k in cur) && (k in cur ==> cp[k] == cur[k]) {
      PatchIsLocal(cur, decl, p, k);
    }
    forall k <- onP ensures (k in cq) == (k in cur) && (k in cur ==> cq[k] == cur[k]) {
      PatchIsLocal(cur, decl, q, k);
    }
    AgreeingPatches(cp, cur, decl, q);
    AgreeingPatches(cq, cur, decl, p);
    var x, y := Handled(cp, decl, q), Handled(cq, decl, p);
    forall k ensures (k in x) == (k in y) && (k in x ==> x[k] == y[k]) {
      if k !in onP {
        PatchIsLocal(cur, decl, p, k);
        PatchIsLocal(cq, decl, p, k);
      }
      if k !in onQ {
        PatchIsLocal(cur, decl, q, k);
        PatchIsLocal(cp, decl, q, k);
      }
    }
    assert x.Keys == y.Keys;
  }

  // ---- The Secret ----

  /** A Secret records values and, per controller source, the names that have it; every other
      name reads back as the user's. */
  datatype Secret = Secret(data: map<string, string>, binding: set<string>, generated: set<string>, shared: set<string>,
      retained: set<string>)

  function SourceIn(s: Secret, k: string): string {
    if k in s.binding then "binding"
    else if k in s.generated then "generated"
    else if k in s.shared then "shared"
    else if k in s.retained then "retained"
    else "user"
  }

  function Read(s: Secret): Contents {
    map k | k in s.data :: Entry(s.data[k], SourceIn(s, k))
  }

  function Build(c: Contents): Secret {
    Secret(
      map k | k in c :: c[k].value,
      set k | k in c && c[k].source == "binding",
      set k | k in c && c[k].source == "generated",
      set k | k in c && c[k].source == "shared",
      set k | k in c && c[k].source == "retained")
  }

  predicate KnownSource(source: string) {
    source in {"user", "binding", "generated", "shared", "retained"}
  }

  function Normal(e: Entry): Entry {
    if KnownSource(e.source) then e else e.(source := "user")
  }

  /** What is written reads back unchanged, except that an unknown or blank source becomes the
      user's. */
  lemma {:induction false} ReadBuild(c: Contents, k: string)
    ensures k in Read(Build(c)) <==> k in c
    ensures k in c ==> Read(Build(c))[k] == Normal(c[k])
  {
  }

  // ---- Many writers ----

  predicate NameStart(ch: char) {
    'A' <= ch <= 'Z' || 'a' <= ch <= 'z' || ch == '_'
  }

  /** POSIX names: a letter or underscore, then letters, digits and underscores. */
  predicate ValidName(name: string) {
    && name != "" && NameStart(name[0])
    && forall i | 0 < i < |name| :: NameStart(name[i]) || '0' <= name[i] <= '9'
  }

  predicate ValidNames(c: Contents) {
    forall k <- c.Keys :: ValidName(k)
  }

  predicate NoControllerKeys(s: Secret) {
    s.binding == {} && s.generated == {} && s.shared == {} && s.retained == {}
  }

  function Held(stored: Option<Secret>): Contents {
    if stored.Some? then Read(stored.value) else map[]
  }

  /** One attempt of a PUT or PATCH on the Secret as read: refused on an ownership conflict or an
      invalid name, skipped when nothing would change, written otherwise. */
  function Decide(decl: Declared, stored: Option<Secret>, r: Request): Verdict<Secret> {
    if Refused(Held(stored), decl, r) || !ValidNames(Apply(Held(stored), decl, r)) then Refuse else
    var next := Build(Apply(Held(stored), decl, r));
    if stored.Some? && stored.value.data == next.data && NoControllerKeys(stored.value) && NoControllerKeys(next)
    then Keep else Write(next)
  }

  function EnvDecision(decl: Declared): Decision<Secret, Request> {
    (stored, r, now) => Decide(decl, stored, r)
  }

  /** A committed write makes the Secret hold exactly what the request means for what it held. */
  lemma {:induction false} CommitMeaning(decl: Declared, stored: Option<Secret>, r: Request, now: int)
    requires EnvDecision(decl)(stored, r, now).Write?
    ensures var next := EnvDecision(decl)(stored, r, now).value;
            && !Refused(Held(stored), decl, r)
            && (forall k :: k in Read(next) <==> k in Apply(Held(stored), decl, r))
            && (forall k | k in Read(next) :: Read(next)[k] == Normal(Apply(Held(stored), decl, r)[k]))
  {
    var c := Apply(Held(stored), decl, r);
    forall k ensures (k in Read(Build(c)) <==> k in c) && (k in c ==> Read(Build(c))[k] == Normal(c[k])) {
      ReadBuild(c, k);
    }
  }

  /** A skipped write would have changed nothing. */
  lemma {:induction false} KeepMeaning(decl: Declared, stored: Option<Secret>, r: Request, now: int)
    requires EnvDecision(decl)(stored, r, now).Keep?
    ensures Read(Build(Apply(Held(stored), decl, r))) == Held(stored)
  {
  }

  lemma {:induction false} FoldKeepsProtected(decl: Declared, ops: seq<Request>, init: Option<Secret>,
      commits: seq<Commit>, k: string)
    requires forall c <- commits :: c.writer < |ops|
    requires AllApplied(EnvDecision(decl), ops, init, commits)
    ensures var end := Held(Fold(EnvDecision(decl), ops, init, commits));
            && Protected(end, decl, k) == Protected(Held(init), decl, k)
            && (Protected(Held(init), decl, k) ==>
                  (k in end) == (k in Held(init)) && (k in end ==> end[k] == Held(init)[k]))
    decreases |commits|
  {
    if commits != [] {
      var front, c := commits[..|commits| - 1], commits[|commits| - 1];
      FoldKeepsProtected(decl, ops, init, front, k);
      var before := Fold(EnvDecision(decl), ops, init, front);
      CommitMeaning(decl, before, ops[c.writer], c.now);
      ProtectedNamesAreFixed(Held(before), decl, ops[c.writer], k);
      HeldIsNormal(before, k);
    }
  }

  lemma {:induction false} HeldIsNormal(stored: Option<Secret>, k: string)
    ensures k in Held(stored) ==> KnownSource(Held(stored)[k].source) && Normal(Held(stored)[k]) == Held(stored)[k]
  {
  }

  /** Main result.  Under every interleaving of any number of PUT and PATCH requests, with their
      conflict retries, the Secret is the sequential fold of the committed requests; refused and
      given-up requests contributed nothing; and every variable the controller or the spec owns
      is, in value and source, exactly what it was. */
  lemma {:induction false} OwnershipHoldsInEveryRun(decl: Declared, ops: seq<Request>, obj: Object<Secret>,
      steps: seq<ConflictRetry.Step>, k: string)
    requires obj.Valid()
    ensures var s := Run(EnvDecision(decl), ops, obj, steps);
            var start, end := Held(obj.Content()), Held(s.obj.Content());
            && (forall c <- s.commits :: c.writer < |ops|)
            && s.obj.Content() == Fold(EnvDecision(decl), ops, obj.Content(), s.commits)
            && (forall w | 0 <= w < |ops| :: CountMatches(s.phases[w], CommitsOf(s.commits, w)))
            && Protected(end, decl, k) == Protected(start, decl, k)
            && (Protected(start, decl, k) ==> (k in end) == (k in start) && (k in end ==> end[k] == start[k]))
  {
    EveryInterleavingIsSequential(EnvDecision(decl), ops, obj, steps);
    FoldKeepsProtected(decl, ops, obj.Content(), Run(EnvDecision(decl), ops, obj, steps).commits, k);
  }
}
