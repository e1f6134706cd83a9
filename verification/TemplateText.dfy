/** Replacing the ${NAME} placeholders of a template, first from given values and then from fresh hex strings. */
module TemplateText {
  import opened Options
  import opened Ordering

  type Byte = b: int | 0 <= b < 256
  type Vars = map<string, string>

  // ---- Hex ----

  predicate IsHexDigit(c: char) {
    '0' <= c <= '9' || 'a' <= c <= 'f'
  }

  function HexDigit(n: nat): (c: char)
    requires n < 16
    ensures IsHexDigit(c)
  {
    "0123456789abcdef"[n]
  }

  function HexEncode(b: seq<Byte>): (s: string)
    ensures |s| == 2 * |b| && forall c <- s :: IsHexDigit(c)
  {
    if b == [] then "" else [HexDigit(b[0] / 16), HexDigit(b[0] % 16)] + HexEncode(b[1..])
  }

  /** What reading a hex string of `length` characters yields, if enough bytes are left. */
  function HexFrom(bytes: seq<Byte>, length: nat): (r: Option<string>)
    ensures r.None? <==> |bytes| < (length + 1) / 2
    ensures r.Some? ==> |r.value| == length && forall c <- r.value :: IsHexDigit(c)
  {
    var n := (length + 1) / 2;
    if |bytes| < n then None else Some(HexEncode(bytes[..n])[..length])
  }

  // ---- Text ----

  function Placeholder(name: string): string {
    "${" + name + "}"
  }

  /** Leftmost first, without overlap. */
  function ReplaceAll(s: string, hole: string, value: string): string
    requires hole != ""
    decreases |s|
  {
    if |s| < |hole| then s
    else if hole <= s then value + ReplaceAll(s[|hole|..], hole, value)
    else [s[0]] + ReplaceAll(s[1..], hole, value)
  }

  predicate OpensAt(s: string, i: nat) {
    i + 1 < |s| && s[i] == '$' && s[i + 1] == '{'
  }

  /** How many placeholders are opened. */
  function Opens(s: string): nat {
    if |s| < 2 then 0 else (if OpensAt(s, 0) then 1 else 0) + Opens(s[1..])
  }

  function FirstOpen(s: string): (r: Option<nat>)
    ensures r.None? ==> forall i: nat :: !OpensAt(s, i)
    ensures r.Some? ==> OpensAt(s, r.value) && forall i: nat | i < r.value :: !OpensAt(s, i)
  {
    if |s| < 2 then None
    else if OpensAt(s, 0) then Some(0)
    else
      var r := FirstOpen(s[1..]);
      assert forall i: nat | i > 0 :: OpensAt(s, i) == OpensAt(s[1..], i - 1);
      if r.None? then None else Some(r.value + 1)
  }

  function FirstClose(s: string, start: nat): (r: Option<nat>)
    requires start <= |s|
    ensures r.None? ==> forall i | start <= i < |s| :: s[i] != '}'
    ensures r.Some? ==> start <= r.value < |s| && s[r.value] == '}' && forall i | start <= i < r.value :: s[i] != '}'
    decreases |s| - start
  {
    if start == |s| then None else if s[start] == '}' then Some(start) else FirstClose(s, start + 1)
  }

  /** The name in the first placeholder, unless none is opened or none after the first opening is closed. */
  function FirstName(s: string): (r: Option<string>)
    ensures r.Some? ==> Contains(s, Placeholder(r.value))
  {
    var at := FirstOpen(s);
    if at.None? then None else
    var end := FirstClose(s, at.value);
    if end.None? then None else
    var name := s[at.value + 2..end.value];
    assert OccursAt(s, Placeholder(name), at.value);
    Some(name)
  }

  predicate OccursAt(s: string, hole: string, i: nat) {
    i + |hole| <= |s| && s[i..i + |hole|] == hole
  }

  ghost predicate Contains(s: string, hole: string) {
    exists i: nat :: OccursAt(s, hole, i)
  }

  /** Somewhere an opening is followed by a closing brace. */
  ghost predicate HasClosed(s: string) {
    exists i: nat, j: nat :: OpensAt(s, i) && i < j < |s| && s[j] == '}'
  }

  lemma {:induction false} FirstNameFindsClosed(s: string)
    ensures FirstName(s).None? <==> !HasClosed(s)
  {
    var at := FirstOpen(s);
    if at.Some? && FirstClose(s, at.value).None? {
      forall i: nat, j: nat | OpensAt(s, i) && i < j < |s| ensures s[j] != '}' {
        assert at.value <= i;
      }
    }
  }

  // ---- The count of openings ----

  lemma {:induction false} OpensOfSuffix(s: string, n: nat)
    requires n <= |s|
    ensures Opens(s[n..]) <= Opens(s)
  {
    if n > 0 && |s| >= 2 {
      OpensOfSuffix(s[1..], n - 1);
      assert s[1..][n - 1..] == s[n..];
    }
  }

  lemma {:induction false} OpensAfterPlain(value: string, s: string)
    requires '$' !in value
    ensures Opens(value + s) == Opens(s)
  {
    if value == "" {
      assert value + s == s;
    } else {
      OpensAfterPlain(value[1..], s);
      assert (value + s)[1..] == value[1..] + s;
    }
  }

  /** Where the hole does not start, one character is kept. */
  lemma {:induction false} SkipOne(s: string, hole: string, value: string)
    requires hole != "" && s != "" && !(hole <= s)
    ensures ReplaceAll(s, hole, value) == [s[0]] + ReplaceAll(s[1..], hole, value)
  {
    if |s| < |hole| {
      assert s == [s[0]] + s[1..];
    }
  }

  lemma {:induction false} ContainsLater(s: string, hole: string)
    requires hole != "" && s != "" && !(hole <= s)
    ensures Contains(s, hole) <==> Contains(s[1..], hole)
  {
    if Contains(s, hole) {
      var i: nat :| OccursAt(s, hole, i);
      assert i > 0;
      assert s[1..][i - 1..i - 1 + |hole|] == s[i..i + |hole|];
      assert OccursAt(s[1..], hole, i - 1);
    }
    if Contains(s[1..], hole) {
      var i: nat :| OccursAt(s[1..], hole, i);
      assert s[1..][i..i + |hole|] == s[i + 1..i + 1 + |hole|];
      assert OccursAt(s, hole, i + 1);
    }
  }

  lemma {:induction false} OpensCons(c: char, s: string)
    ensures Opens([c] + s) == Opens(s) + if c == '$' && s != "" && s[0] == '{' then 1 else 0
  {
    assert ([c] + s)[1..] == s;
  }

  lemma {:induction false} PlaceholderOpens(s: string, name: string)
    requires Placeholder(name) <= s
    ensures Opens(s) > Opens(s[|Placeholder(name)|..])
  {
    var n := |Placeholder(name)|;
    assert OpensAt(s, 0);
    OpensOfSuffix(s[1..], n - 1);
    assert s[1..][n - 1..] == s[n..];
  }

  /** Replacing a placeholder by text without `$` or `{` opens nothing new, and closes what it replaces. */
  lemma {:induction false} ReplacingLowersOpens(s: string, name: string, value: string)
    requires value != "" && '$' !in value && '{' !in value
    ensures var t := ReplaceAll(s, Placeholder(name), value);
            && Opens(t) <= Opens(s)
            && (Contains(s, Placeholder(name)) ==> Opens(t) < Opens(s))
            && (s != "" ==> t != "" && (t[0] == s[0] || t[0] == value[0]))
    decreases |s|
  {
    var hole := Placeholder(name);
    if s == "" {
    } else if hole <= s {
      var rest := s[|hole|..];
      ReplacingLowersOpens(rest, name, value);
      OpensAfterPlain(value, ReplaceAll(rest, hole, value));
      PlaceholderOpens(s, name);
    } else {
      SkipOne(s, hole, value);
      ContainsLater(s, hole);
      ReplacingLowersOpens(s[1..], name, value);
      OpensCons(s[0], ReplaceAll(s[1..], hole, value));
      OpensCons(s[0], s[1..]);
      assert s == [s[0]] + s[1..];
    }
  }

  // ---- Filling what is left ----

  datatype Filling = Filled(text: string, vars: Vars, bytes: seq<Byte>) | OutOfEntropy(vars: Vars, bytes: seq<Byte>)

  /** Replace the first placeholder, everywhere, by a fresh 32-character string, until none is left. */
  function AutoFill(text: string, vars: Vars, bytes: seq<Byte>): Filling
    decreases Opens(text)
  {
    var name := FirstName(text);
    if name.None? then Filled(text, vars, bytes) else
    var hex := HexFrom(bytes, 32);
    if hex.None? then OutOfEntropy(vars, []) else
    ReplacingLowersOpens(text, name.value, hex.value);
    AutoFill(ReplaceAll(text, Placeholder(name.value), hex.value), vars[name.value := hex.value], bytes[16..])
  }

  /** No placeholder is left, and entropy is all that can be missing. */
  lemma {:induction false} AutoFillFinishes(text: string, vars: Vars, bytes: seq<Byte>)
    ensures var r := AutoFill(text, vars, bytes);
            && (r.Filled? ==> !HasClosed(r.text))
            && (|bytes| >= 16 * Opens(text) ==> r.Filled?)
            && vars.Keys <= r.vars.Keys
    decreases Opens(text)
  {
    FirstNameFindsClosed(text);
    var name := FirstName(text);
    var hex := HexFrom(bytes, 32);
    if name.Some? && hex.Some? {
      ReplacingLowersOpens(text, name.value, hex.value);
      AutoFillFinishes(ReplaceAll(text, Placeholder(name.value), hex.value), vars[name.value := hex.value],
          bytes[16..]);
    } else if name.Some? {
      ReplacingLowersOpens(text, name.value, "0");
    }
  }

  /** Replace the given names in the given order. */
  function ReplaceEach(text: string, order: seq<string>, vars: Vars): string
    requires forall k <- order :: k in vars
    decreases |order|
  {
    if order == [] then text
    else ReplaceEach(ReplaceAll(text, Placeholder(order[0]), vars[order[0]]), order[1..], vars)
  }

  lemma {:induction false} ReplaceOneMore(text: string, order: seq<string>, k: string, vars: Vars)
    requires k in vars && forall x <- order :: x in vars
    ensures ReplaceEach(text, order + [k], vars) == ReplaceAll(ReplaceEach(text, order, vars), Placeholder(k), vars[k])
    decreases |order|
  {
    if order == [] {
      assert (order + [k])[1..] == [];
    } else {
      ReplaceOneMore(ReplaceAll(text, Placeholder(order[0]), vars[order[0]]), order[1..], k, vars);
      assert (order + [k])[1..] == order[1..] + [k];
    }
  }

  // ---- Templates as their parts ----

  datatype Part = Text(s: string) | Hole(name: string)

  /** Text that opens no placeholder, alone or with whatever follows it. */
  predicate SafeText(s: string) {
    (forall i: nat | i < |s| :: !OpensAt(s, i)) && (s != "" ==> s[|s| - 1] != '$')
  }

  /** Text that opens no placeholder, alone or with this after it. */
  predicate Apart(s: string, next: string) {
    forall i: nat | i < |s| :: !OpensAt(s + next, i)
  }

  lemma {:induction false} SafeIsApart(s: string, next: string)
    requires SafeText(s)
    ensures Apart(s, next)
  {
    forall i: nat | i < |s| ensures !OpensAt(s + next, i) {
      assert !OpensAt(s, i);
    }
  }

  lemma {:induction false} ApartByStart(s: string, a: string, b: string)
    requires Apart(s, a) && (b != "" && b[0] == '{' ==> a != "" && a[0] == '{')
    ensures Apart(s, b)
  {
    forall i: nat | i < |s| ensures !OpensAt(s + b, i) {
      assert !OpensAt(s + a, i);
    }
  }

  predicate NameOk(name: string) {
    '$' !in name && '}' !in name
  }

  /** Proper names in the holes, and text that opens nothing where it stands; it may end in a dollar sign only if
      `dollars` says so. */
  predicate PartsOk(parts: seq<Part>, dollars: bool) {
    parts == [] ||
    (PartsOk(parts[1..], dollars) &&
     match parts[0]
     case Text(s) => if dollars then Apart(s, Render(parts[1..])) else SafeText(s)
     case Hole(name) => NameOk(name))
  }

  lemma {:induction false} HoleNameOk(parts: seq<Part>, dollars: bool, name: string)
    requires PartsOk(parts, dollars) && Hole(name) in parts
    ensures NameOk(name)
  {
    if parts[0] != Hole(name) {
      assert parts == [parts[0]] + parts[1..];
      HoleNameOk(parts[1..], dollars, name);
    }
  }

  lemma {:induction false} TextIsApart(parts: seq<Part>, dollars: bool)
    requires PartsOk(parts, dollars) && parts != [] && parts[0].Text?
    ensures Apart(parts[0].s, Render(parts[1..]))
  {
    if !dollars {
      SafeIsApart(parts[0].s, Render(parts[1..]));
    }
  }

  /** A value that stays what it is wherever it is put: it opens nothing with what follows it nor, where text may end in
      a dollar sign, with what precedes it. */
  predicate ValueOk(v: string, dollars: bool) {
    SafeText(v) && (dollars ==> v != "" && v[0] != '{')
  }

  function PartText(p: Part): string {
    if p.Text? then p.s else Placeholder(p.name)
  }

  function Render(parts: seq<Part>): string {
    if parts == [] then "" else PartText(parts[0]) + Render(parts[1..])
  }

  function FillPart(p: Part, vars: Vars): Part {
    if p.Hole? && p.name in vars then Text(vars[p.name]) else p
  }

  /** Every hole with a value filled at once. */
  function Fill(parts: seq<Part>, vars: Vars): seq<Part> {
    seq(|parts|, i requires 0 <= i < |parts| => FillPart(parts[i], vars))
  }

  ghost function HoleNames(parts: seq<Part>): set<string> {
    set p | p in parts && p.Hole? :: p.name
  }

  lemma {:induction false} ApartTail(s: string, t: string, k: string)
    requires Apart(s, t) && s != ""
    ensures Apart(s[1..], t) && (s + t)[1..] == s[1..] + t && !(Placeholder(k) <= s + t)
  {
    forall i: nat | i < |s[1..]| ensures !OpensAt(s[1..] + t, i) {
      assert !OpensAt(s + t, i + 1);
    }
    assert OpensAt(Placeholder(k), 0) && !OpensAt(s + t, 0);
  }

  lemma {:induction false} SkipApart(whole: string, plain: string, s: string, k: string, v: string, replaced: string)
    requires whole == plain + s && Apart(plain, s) && replaced == ReplaceAll(s, Placeholder(k), v)
    ensures ReplaceAll(whole, Placeholder(k), v) == plain + replaced
    decreases |plain|
  {
    if plain == "" {
      assert whole == s;
    } else {
      ApartTail(plain, s, k);
      SkipOne(whole, Placeholder(k), v);
      SkipApart(whole[1..], plain[1..], s, k, v, replaced);
      assert [plain[0]] + (plain[1..] + replaced) == plain + replaced;
    }
  }

  lemma {:induction false} SkipPlain(plain: string, s: string, k: string, v: string)
    requires Apart(plain, s)
    ensures ReplaceAll(plain + s, Placeholder(k), v) == plain + ReplaceAll(s, Placeholder(k), v)
  {
    SkipApart(plain + s, plain, s, k, v, ReplaceAll(s, Placeholder(k), v));
  }

  lemma {:induction false} PrefixTellsName(name: string, k: string, s: string)
    requires NameOk(name) && NameOk(k) && Placeholder(k) <= Placeholder(name) + s
    ensures name == k
  {
    var hole, text := Placeholder(k), Placeholder(name) + s;
    assert forall i | 0 <= i < |hole| :: hole[i] == text[i];
    assert forall i | 0 <= i < |k| + 2 :: hole[i] != '}';
    assert forall i | 0 <= i < |name| + 2 :: text[i] != '}';
    assert text[|name| + 2] == '}' && hole[|k| + 2] == '}';
    assert |k| == |name|;
    assert k == hole[2..|k| + 2] == text[2..|k| + 2] == name;
  }

  lemma {:induction false} SkipFirst(whole: string, c: char, tail: string, s: string, k: string, v: string)
    requires whole == [c] + tail + s && !(Placeholder(k) <= whole) && Apart(tail, s)
    ensures ReplaceAll(whole, Placeholder(k), v) == [c] + tail + ReplaceAll(s, Placeholder(k), v)
  {
    var replaced := ReplaceAll(s, Placeholder(k), v);
    SkipOne(whole, Placeholder(k), v);
    SkipApart(whole[1..], tail, s, k, v, replaced);
    assert [c] + (tail + replaced) == [c] + tail + replaced;
  }

  lemma {:induction false} SkipOtherHole(name: string, s: string, k: string, v: string)
    requires NameOk(name) && NameOk(k) && name != k
    ensures ReplaceAll(Placeholder(name) + s, Placeholder(k), v) == Placeholder(name) + ReplaceAll(s, Placeholder(k), v)
  {
    var tail := "{" + name + "}";
    OtherHoleStarts(name, s, k);
    SafeIsApart(tail, s);
    assert ['$'] + tail == Placeholder(name);
    SkipFirst(Placeholder(name) + s, '$', tail, s, k, v);
  }

  lemma {:induction false} OtherHoleStarts(name: string, s: string, k: string)
    requires NameOk(name) && NameOk(k) && name != k
    ensures !(Placeholder(k) <= Placeholder(name) + s) && SafeText("{" + name + "}")
    ensures (Placeholder(name) + s)[1..] == ("{" + name + "}") + s
  {
    if Placeholder(k) <= Placeholder(name) + s {
      PrefixTellsName(name, k, s);
    }
  }

  lemma {:induction false} ReplaceInPart(p: Part, next: string, k: string, v: string)
    requires NameOk(k) && if p.Text? then Apart(p.s, next) else NameOk(p.name)
    ensures ReplaceAll(PartText(p) + next, Placeholder(k), v)
            == PartText(FillPart(p, map[k := v])) + ReplaceAll(next, Placeholder(k), v)
  {
    if p.Text? {
      SkipPlain(p.s, next, k, v);
    } else if p.name != k {
      SkipOtherHole(p.name, next, k, v);
    } else {
      assert Placeholder(k) <= PartText(p) + next && (PartText(p) + next)[|Placeholder(k)|..] == next;
    }
  }

  /** On a template made of parts, replacing one name fills its holes and touches nothing else. */
  lemma {:induction false} ReplaceIsFill(parts: seq<Part>, dollars: bool, k: string, v: string)
    requires PartsOk(parts, dollars) && NameOk(k)
    ensures ReplaceAll(Render(parts), Placeholder(k), v) == Render(Fill(parts, map[k := v]))
  {
    var m := map[k := v];
    if parts == [] {
      assert Fill(parts, m) == [];
    } else {
      if parts[0].Text? {
        TextIsApart(parts, dollars);
      }
      ReplaceInPart(parts[0], Render(parts[1..]), k, v);
      ReplaceIsFill(parts[1..], dollars, k, v);
      RenderCons(Fill(parts, m));
      assert Fill(parts, m)[1..] == Fill(parts[1..], m);
    }
  }

  lemma {:induction false} RenderCons(parts: seq<Part>)
    requires parts != []
    ensures Render(parts) == PartText(parts[0]) + Render(parts[1..])
  {
  }

  lemma {:induction false} FillTwice(parts: seq<Part>, a: Vars, b: Vars)
    requires a.Keys !! b.Keys || forall k <- a.Keys * b.Keys :: a[k] == b[k]
    ensures Fill(Fill(parts, a), b) == Fill(parts, a + b)
  {
    forall i | 0 <= i < |parts| ensures FillPart(FillPart(parts[i], a), b) == FillPart(parts[i], a + b) {
    }
  }

  /** A filled template starts with a brace only if it did before. */
  lemma {:induction false} FillKeepsStart(parts: seq<Part>, vars: Vars)
    requires forall k <- vars.Keys :: ValueOk(vars[k], true)
    ensures var t := Render(Fill(parts, vars));
            t != "" && t[0] == '{' ==> Render(parts) != "" && Render(parts)[0] == '{'
  {
    if parts != [] {
      FillKeepsStart(parts[1..], vars);
      assert Fill(parts, vars)[1..] == Fill(parts[1..], vars);
    }
  }

  lemma {:induction false} FillOk(parts: seq<Part>, dollars: bool, vars: Vars)
    requires PartsOk(parts, dollars) && forall k <- vars.Keys :: ValueOk(vars[k], dollars)
    ensures PartsOk(Fill(parts, vars), dollars)
  {
    if parts != [] {
      var p, rest := parts[0], Fill(parts[1..], vars);
      FillOk(parts[1..], dollars, vars);
      assert Fill(parts, vars)[1..] == rest;
      if p.Hole? && p.name in vars {
        SafeIsApart(vars[p.name], Render(rest));
      } else if p.Text? && dollars {
        FillKeepsStart(parts[1..], vars);
        ApartByStart(p.s, Render(parts[1..]), Render(rest));
      }
    }
  }

  ghost predicate GivenOk(vars: Vars, dollars: bool) {
    forall k <- vars.Keys :: NameOk(k) && ValueOk(vars[k], dollars)
  }

  function Restrict(vars: Vars, names: set<string>): Vars {
    map k | k in vars && k in names :: vars[k]
  }

  /** Whatever order the names come in, replacing them one by one fills all holes at once. */
  lemma {:induction false} ReplaceEachIsFill(parts: seq<Part>, dollars: bool, order: seq<string>, vars: Vars)
    requires PartsOk(parts, dollars) && GivenOk(vars, dollars) && forall k <- order :: k in vars
    ensures ReplaceEach(Render(parts), order, vars) == Render(Fill(parts, Restrict(vars, Elements(order))))
    decreases |order|
  {
    if order == [] {
      assert Fill(parts, Restrict(vars, Elements(order))) == parts;
    } else {
      var k := order[0];
      var m := map[k := vars[k]];
      ReplaceIsFill(parts, dollars, k, vars[k]);
      FillOk(parts, dollars, m);
      ReplaceEachIsFill(Fill(parts, m), dollars, order[1..], vars);
      FillTwice(parts, m, Restrict(vars, Elements(order[1..])));
      assert m + Restrict(vars, Elements(order[1..])) == Restrict(vars, Elements(order));
    }
  }

  // ---- The loop on templates made of parts ----

  function FirstHole(parts: seq<Part>): Option<string> {
    if parts == [] then None else if parts[0].Hole? then Some(parts[0].name) else FirstHole(parts[1..])
  }

  lemma {:induction false} OpensAfterPlainText(plain: string, s: string)
    requires Apart(plain, s)
    ensures forall i: nat :: OpensAt(plain + s, i) <==> i >= |plain| && OpensAt(s, i - |plain|)
  {
    forall i: nat ensures OpensAt(plain + s, i) <==> i >= |plain| && OpensAt(s, i - |plain|) {
      if i < |plain| {
        assert !OpensAt(plain + s, i);
      }
    }
  }

  lemma {:induction false} FirstOpenAfterPlain(plain: string, s: string)
    requires Apart(plain, s)
    ensures FirstOpen(plain + s) == if FirstOpen(s).None? then None else Some(FirstOpen(s).value + |plain|)
  {
    OpensAfterPlainText(plain, s);
    var at, end := FirstOpen(s), FirstOpen(plain + s);
    if at.Some? {
      assert OpensAt(plain + s, at.value + |plain|);
    }
    if end.Some? {
      assert OpensAt(s, end.value - |plain|);
    }
  }

  lemma {:induction false} FirstCloseAfter(plain: string, s: string, start: nat)
    requires start <= |s|
    ensures FirstClose(plain + s, start + |plain|)
            == if FirstClose(s, start).None? then None else Some(FirstClose(s, start).value + |plain|)
  {
    var c, d := FirstClose(s, start), FirstClose(plain + s, start + |plain|);
    if c.Some? {
      assert (plain + s)[c.value + |plain|] == '}';
    }
    if d.Some? {
      assert s[d.value - |plain|] == '}';
    }
  }

  lemma {:induction false} SliceAfter(plain: string, s: string, lo: nat, hi: nat)
    requires lo <= hi <= |s|
    ensures (plain + s)[lo + |plain|..hi + |plain|] == s[lo..hi]
  {
  }

  lemma {:induction false} FirstNameAfterPlain(plain: string, s: string)
    requires Apart(plain, s)
    ensures FirstName(plain + s) == FirstName(s)
  {
    FirstOpenAfterPlain(plain, s);
    var at := FirstOpen(s);
    if at.Some? {
      FirstCloseAfter(plain, s, at.value);
      var end := FirstClose(s, at.value);
      if end.Some? {
        SliceAfter(plain, s, at.value + 2, end.value);
      }
    }
  }

  lemma {:induction false} FirstNameIsFirstHole(parts: seq<Part>, dollars: bool)
    requires PartsOk(parts, dollars)
    ensures FirstName(Render(parts)) == FirstHole(parts)
  {
    if parts != [] {
      if parts[0].Text? {
        TextIsApart(parts, dollars);
        FirstNameAfterPlain(parts[0].s, Render(parts[1..]));
        FirstNameIsFirstHole(parts[1..], dollars);
      } else {
        var name, t := parts[0].name, Render(parts);
        assert OpensAt(t, 0) && FirstOpen(t) == Some(0);
        assert t[|name| + 2] == '}';
        assert forall i | 2 <= i < |name| + 2 :: t[i] == name[i - 2];
        assert FirstClose(t, 0) == Some(|name| + 2);
        assert t[2..|name| + 2] == name;
      }
    }
  }

  lemma {:induction false} FirstHoleIsHole(parts: seq<Part>)
    ensures FirstHole(parts).Some? ==>
              FirstHole(parts).value in HoleNames(parts) && Hole(FirstHole(parts).value) in parts
    ensures FirstHole(parts).None? ==> HoleNames(parts) == {}
  {
    if parts != [] {
      FirstHoleIsHole(parts[1..]);
      assert parts == [parts[0]] + parts[1..];
      if parts[0].Hole? {
        assert parts[0] in parts;
      }
    }
  }

  lemma {:induction false} HoleNamesOfFill(parts: seq<Part>, vars: Vars)
    ensures HoleNames(Fill(parts, vars)) == HoleNames(parts) - vars.Keys
  {
    forall n ensures n in HoleNames(Fill(parts, vars)) <==> n in HoleNames(parts) - vars.Keys {
      if n in HoleNames(Fill(parts, vars)) {
        var i :| 0 <= i < |parts| && FillPart(parts[i], vars) == Hole(n);
        assert parts[i] in parts;
      }
      if n in HoleNames(parts) - vars.Keys {
        var i :| 0 <= i < |parts| && parts[i] == Hole(n);
        assert Fill(parts, vars)[i] == Hole(n);
      }
    }
  }

  lemma {:induction false} FillNothing(parts: seq<Part>, vars: Vars)
    requires HoleNames(parts) !! vars.Keys
    ensures Fill(parts, vars) == parts
  {
    forall i | 0 <= i < |parts| ensures FillPart(parts[i], vars) == parts[i] {
      if parts[i].Hole? {
        assert parts[i].name in HoleNames(parts);
      }
    }
  }

  ghost predicate FreshHex(s: string) {
    |s| == 32 && forall c <- s :: IsHexDigit(c)
  }

  /** The text is the template with its holes filled from the final values; earlier values are kept and new ones are
      fresh. */
  ghost predicate FilledFrom(parts: seq<Part>, vars: Vars, r: Filling) {
    r.Filled? ==>
      && r.vars.Keys == vars.Keys + HoleNames(parts)
      && (forall k <- vars.Keys :: r.vars[k] == vars[k])
      && (forall k <- HoleNames(parts) - vars.Keys :: FreshHex(r.vars[k]))
      && r.text == Render(Fill(parts, r.vars))
  }

  lemma {:induction false} FilledAfter(parts: seq<Part>, given: Vars, vars: Vars, r: Filling)
    requires FilledFrom(Fill(parts, given), vars, r)
    requires forall k <- given.Keys :: k in vars && vars[k] == given[k]
    ensures FilledFrom(parts, vars, r)
  {
    HoleNamesOfFill(parts, given);
    if r.Filled? {
      FillTwice(parts, given, r.vars);
      assert given + r.vars == r.vars;
    }
  }

  lemma {:induction false} AutoFillStep(text: string, vars: Vars, bytes: seq<Byte>, name: string, hex: string)
    requires FirstName(text) == Some(name) && HexFrom(bytes, 32) == Some(hex)
    ensures AutoFill(text, vars, bytes)
              == AutoFill(ReplaceAll(text, Placeholder(name), hex), vars[name := hex], bytes[16..])
    ensures Opens(ReplaceAll(text, Placeholder(name), hex)) < Opens(text)
  {
    ReplacingLowersOpens(text, name, hex);
  }

  lemma {:induction false} AutoFillStops(text: string, vars: Vars, bytes: seq<Byte>)
    ensures FirstName(text).None? ==> AutoFill(text, vars, bytes) == Filled(text, vars, bytes)
    ensures FirstName(text).Some? && HexFrom(bytes, 32).None? ==> AutoFill(text, vars, bytes).OutOfEntropy?
  {
  }

  lemma {:induction false} HexIsOk(value: string, dollars: bool)
    requires FreshHex(value)
    ensures ValueOk(value, dollars)
  {
    forall i | 0 <= i < |value| ensures value[i] != '$' && value[i] != '{' {
      assert IsHexDigit(value[i]);
    }
  }

  lemma {:induction false} FillOneHole(parts: seq<Part>, dollars: bool, n: string, value: string)
    requires PartsOk(parts, dollars) && Hole(n) in parts && FreshHex(value)
    ensures var filled := Fill(parts, map[n := value]);
            && ReplaceAll(Render(parts), Placeholder(n), value) == Render(filled)
            && PartsOk(filled, dollars) && HoleNames(filled) == HoleNames(parts) - {n}
  {
    HoleNameOk(parts, dollars, n);
    ReplaceIsFill(parts, dollars, n, value);
    HexIsOk(value, dollars);
    FillOk(parts, dollars, map[n := value]);
    HoleNamesOfFill(parts, map[n := value]);
  }

  /** Each hole without a value gets one fresh value, used wherever the name occurs; nothing else changes. */
  lemma {:induction false} AutoFillFillsHoles(parts: seq<Part>, dollars: bool, vars: Vars, bytes: seq<Byte>)
    requires PartsOk(parts, dollars) && HoleNames(parts) !! vars.Keys
    ensures FilledFrom(parts, vars, AutoFill(Render(parts), vars, bytes))
    decreases Opens(Render(parts))
  {
    FirstNameIsFirstHole(parts, dollars);
    FirstHoleIsHole(parts);
    var name, hex := FirstHole(parts), HexFrom(bytes, 32);
    if name.None? {
      FillNothing(parts, vars);
    } else if hex.Some? {
      var n, m, next := name.value, map[name.value := hex.value], vars[name.value := hex.value];
      AutoFillStep(Render(parts), vars, bytes, n, hex.value);
      FillOneHole(parts, dollars, n, hex.value);
      AutoFillFillsHoles(Fill(parts, m), dollars, next, bytes[16..]);
      var r := AutoFill(Render(parts), vars, bytes);
      FilledAfter(parts, m, next, r);
      FilledBefore(parts, vars, n, hex.value, r);
    }
  }

  lemma {:induction false} FilledBefore(parts: seq<Part>, vars: Vars, n: string, value: string, r: Filling)
    requires n !in vars && n in HoleNames(parts) && FreshHex(value)
    requires FilledFrom(parts, vars[n := value], r)
    ensures FilledFrom(parts, vars, r)
  {
    if r.Filled? {
      forall k <- vars.Keys ensures r.vars[k] == vars[k] {
        assert k in vars[n := value];
      }
    }
  }

  /** The given names in the order a map yields them: each once. */
  ghost predicate IsMapOrder(order: seq<string>, vars: Vars) {
    NoDuplicates(order) && Elements(order) == vars.Keys && forall k <- order :: k in vars
  }

  /** A substituted template is the template with every hole filled from the final values; given values are kept. */
  lemma {:induction false} SubstitutionMeaning(parts: seq<Part>, dollars: bool, order: seq<string>, vars: Vars,
      bytes: seq<Byte>)
    requires PartsOk(parts, dollars) && GivenOk(vars, dollars) && IsMapOrder(order, vars)
    ensures FilledFrom(parts, vars, AutoFill(ReplaceEach(Render(parts), order, vars), vars, bytes))
  {
    ReplaceEachIsFill(parts, dollars, order, vars);
    assert Restrict(vars, Elements(order)) == vars;
    FillOk(parts, dollars, vars);
    HoleNamesOfFill(parts, vars);
    var filled := Fill(parts, vars);
    AutoFillFillsHoles(filled, dollars, vars, bytes);
    FilledAfter(parts, vars, vars, AutoFill(Render(filled), vars, bytes));
  }

  // ---- Which values are safe to give ----

  ghost predicate Means(parts: seq<Part>, dollars: bool, order: seq<string>, vars: Vars, bytes: seq<Byte>) {
    PartsOk(parts, dollars) && IsMapOrder(order, vars) ==>
      FilledFrom(parts, vars, AutoFill(ReplaceEach(Render(parts), order, vars), vars, bytes))
  }

  /** The template that shows a bad value: a brace after it and, where text may end in one, a dollar sign before it. */
  function Telling(k: string, dollars: bool): seq<Part> {
    if dollars then [Text("$"), Hole(k), Text("{}")] else [Hole(k), Text("{}")]
  }

  function Around(v: string, dollars: bool): string {
    (if dollars then "$" else "") + v + "{}"
  }

  /** A value that opens a placeholder, or would between a dollar sign and a brace. */
  lemma {:induction false} UnsafeOpens(v: string, dollars: bool)
    requires !ValueOk(v, dollars)
    ensures HasClosed(Around(v, dollars))
  {
    var t, n := Around(v, dollars), if dollars then 1 else 0;
    assert t[|t| - 1] == '}';
    if i: nat :| i < |v| && OpensAt(v, i) {
      assert OpensAt(t, i + n);
    } else if !SafeText(v) {
      assert OpensAt(t, |v| - 1 + n);
    } else {
      assert OpensAt(t, 0);
    }
  }

  lemma {:induction false} TellingIsOk(k: string, dollars: bool)
    requires NameOk(k)
    ensures PartsOk(Telling(k, dollars), dollars)
  {
    var parts := [Hole(k), Text("{}")];
    assert parts[1..] == [Text("{}")] && parts[1..][1..] == [];
    SafeIsApart("{}", Render([]));
    assert PartsOk([Text("{}")], dollars) && PartsOk(parts, dollars);
    assert Telling(k, true)[1..] == parts;
    assert Render(parts)[0] == '$';
  }

  lemma {:induction false} TellingFilled(k: string, dollars: bool, vars: Vars)
    requires k in vars
    ensures Render(Fill(Telling(k, dollars), vars)) == Around(vars[k], dollars)
  {
    var v := vars[k];
    RenderTwo(Text(v), Text("{}"));
    if dollars {
      assert Fill(Telling(k, dollars), vars) == [Text("$"), Text(v), Text("{}")];
      assert [Text("$"), Text(v), Text("{}")][1..] == [Text(v), Text("{}")];
      assert "$" + (v + "{}") == Around(v, dollars);
    } else {
      assert Fill(Telling(k, dollars), vars) == [Text(v), Text("{}")];
      assert v + "{}" == Around(v, dollars);
    }
  }

  lemma {:induction false} RenderOne(p: Part)
    ensures Render([p]) == PartText(p)
  {
    assert [p][1..] == [] && Render([]) == "";
    assert PartText(p) + "" == PartText(p);
  }

  lemma {:induction false} RenderTwo(p: Part, q: Part)
    ensures Render([p, q]) == PartText(p) + PartText(q)
  {
    assert [p, q][1..] == [q];
    RenderOne(q);
  }

  /** One unsafe value spoils a template, whatever the order: enough entropy makes the loop end with no placeholder
      left, so the value is not in the text as it was given. */
  lemma {:induction false} UnsafeValueIsNotMeant(k: string, dollars: bool, vars: Vars, order: seq<string>)
    requires k in vars && NameOk(k) && !ValueOk(vars[k], dollars) && IsMapOrder(order, vars)
    ensures exists parts, bytes :: !Means(parts, dollars, order, vars, bytes)
  {
    var parts := Telling(k, dollars);
    var text := ReplaceEach(Render(parts), order, vars);
    var bytes: seq<Byte> := seq(16 * Opens(text), _ => 0);
    var r := AutoFill(text, vars, bytes);
    AutoFillFinishes(text, vars, bytes);
    TellingIsOk(k, dollars);
    UnsafeOpens(vars[k], dollars);
    TellingFilled(k, dollars, r.vars);
    assert !Means(parts, dollars, order, vars, bytes);
  }

  /** Some order in which a map may be walked. */
  lemma {:induction false} SomeWalk(vars: Vars) returns (order: seq<string>)
    ensures IsMapOrder(order, vars)
    decreases vars.Keys
  {
    if vars == map[] {
      order := [];
    } else {
      var k :| k in vars;
      order := SomeWalk(vars - {k});
      ElementsAppend(order, k);
      order := order + [k];
    }
  }

  /** Exactly when given values take precedence and appear as they were given, in every template and under every order
      of the map: when none of them opens a placeholder or ends in a dollar sign and, if text of the template may end in
      a dollar sign, none is empty or starts with a brace. */
  lemma {:induction false} GivenValuesAreMeantIff(vars: Vars, dollars: bool)
    requires forall k <- vars.Keys :: NameOk(k)
    ensures (forall parts, order, bytes :: Means(parts, dollars, order, vars, bytes)) <==>
            forall k <- vars.Keys :: ValueOk(vars[k], dollars)
  {
    if forall k <- vars.Keys :: ValueOk(vars[k], dollars) {
      forall parts, order, bytes ensures Means(parts, dollars, order, vars, bytes) {
        if PartsOk(parts, dollars) && IsMapOrder(order, vars) {
          SubstitutionMeaning(parts, dollars, order, vars, bytes);
        }
      }
    } else {
      var k :| k in vars && !ValueOk(vars[k], dollars);
      var order := SomeWalk(vars);
      UnsafeValueIsNotMeant(k, dollars, vars, order);
    }
  }

  // ---- Two ways to lose a given value ----

  lemma {:induction false} ReplaceWhole(k: string, v: string)
    ensures ReplaceAll(Placeholder(k), Placeholder(k), v) == v
  {
    var hole := Placeholder(k);
    assert hole[|hole|..] == "";
    assert ReplaceAll("", hole, v) == "";
  }

  lemma {:induction false} ReplaceOther(name: string, k: string, v: string)
    requires NameOk(name) && NameOk(k) && name != k
    ensures ReplaceAll(Placeholder(name), Placeholder(k), v) == Placeholder(name)
  {
    SkipOtherHole(name, "", k, v);
    assert Placeholder(name) + "" == Placeholder(name);
  }

  /** A placeholder left to the loop after safe text gets a fresh value, given or not. */
  lemma {:induction false} LeftoverIsOverwritten(plain: string, k: string, vars: Vars, bytes: seq<Byte>)
    requires SafeText(plain) && NameOk(k) && |bytes| >= 16
    ensures var r := AutoFill(plain + Placeholder(k), vars, bytes);
            && r.Filled? && r.vars == vars[k := HexFrom(bytes, 32).value]
            && r.text == plain + HexFrom(bytes, 32).value && FreshHex(HexFrom(bytes, 32).value)
  {
    var hex := HexFrom(bytes, 32).value;
    LeftoverIsNext(plain, k, hex);
    AutoFillStep(plain + Placeholder(k), vars, bytes, k, hex);
    NothingAfterHex(plain, hex);
    AutoFillStops(plain + hex, vars[k := hex], bytes[16..]);
  }

  lemma {:induction false} LeftoverIsNext(plain: string, k: string, value: string)
    requires SafeText(plain) && NameOk(k)
    ensures FirstName(plain + Placeholder(k)) == Some(k)
    ensures ReplaceAll(plain + Placeholder(k), Placeholder(k), value) == plain + value
  {
    SafeIsApart(plain, Placeholder(k));
    FirstNameAfterPlain(plain, Placeholder(k));
    FirstNameIsFirstHole([Hole(k)], false);
    RenderOne(Hole(k));
    SkipPlain(plain, Placeholder(k), k, value);
    ReplaceWhole(k, value);
  }

  lemma {:induction false} NothingAfterHex(plain: string, hex: string)
    requires SafeText(plain) && '$' !in hex
    ensures FirstName(plain + hex).None?
  {
    SafeIsApart(plain, hex);
    FirstNameAfterPlain(plain, hex);
    assert forall i: nat :: !OpensAt(hex, i);
  }

  /** A value that holds a placeholder: with the names in one order the value given for `b` is used, with the other
      the loop overwrites it by a fresh one. */
  lemma {:induction false} NestedValuesDependOnOrder(a: string, b: string, value: string, bytes: seq<Byte>)
    requires NameOk(a) && NameOk(b) && a != b && |bytes| >= 16
    ensures var vars := map[a := Placeholder(b), b := value];
            && ReplaceEach(Placeholder(a), [a, b], vars) == value
            && var r := AutoFill(ReplaceEach(Placeholder(a), [b, a], vars), vars, bytes);
               r.Filled? && FreshHex(r.text) && r.vars == vars[b := r.text]
  {
    var vars := map[a := Placeholder(b), b := value];
    ReplaceWhole(a, Placeholder(b));
    ReplaceWhole(b, value);
    ReplaceOther(a, b, value);
    ReplaceOneMore(Placeholder(a), [], a, vars);
    ReplaceOneMore(Placeholder(a), [a], b, vars);
    ReplaceOneMore(Placeholder(a), [], b, vars);
    ReplaceOneMore(Placeholder(a), [b], a, vars);
    LeftoverIsOverwritten("", b, vars, bytes);
    assert "" + Placeholder(b) == Placeholder(b);
    assert "" + HexFrom(bytes, 32).value == HexFrom(bytes, 32).value;
  }

  lemma {:induction false} OthersLeaveParts(parts: seq<Part>, order: seq<string>, vars: Vars)
    requires PartsOk(parts, false) && (forall k <- order :: k in vars && NameOk(k) && Hole(k) !in parts)
    ensures ReplaceEach(Render(parts), order, vars) == Render(parts)
    decreases |order|
  {
    if order != [] {
      ReplaceIsFill(parts, false, order[0], vars[order[0]]);
      FillNothing(parts, map[order[0] := vars[order[0]]]);
      OthersLeaveParts(parts, order[1..], vars);
    }
  }

  lemma {:induction false} ReplaceInTwo(text: string, a: seq<string>, b: seq<string>, vars: Vars)
    requires forall k <- a + b :: k in vars
    ensures (forall k <- a :: k in vars) && (forall k <- b :: k in vars)
    ensures ReplaceEach(text, a + b, vars) == ReplaceEach(ReplaceEach(text, a, vars), b, vars)
    decreases |a|
  {
    forall k ensures k in a || k in b ==> k in a + b {
    }
    if a == [] {
      assert a + b == b;
    } else {
      assert (a + b)[1..] == a[1..] + b;
      forall k <- a[1..] + b ensures k in a + b {
      }
      ReplaceInTwo(ReplaceAll(text, Placeholder(a[0]), vars[a[0]]), a[1..], b, vars);
    }
  }

  lemma {:induction false} DollarBecomesHole(k: string, plain: string)
    requires NameOk(k) && SafeText(plain)
    ensures PartsOk([Hole(k), Text("{" + k + "}")], false) && PartsOk([Text(plain), Hole(k)], false)
    ensures ReplaceAll(Render([Hole(k), Text("{" + k + "}")]), Placeholder(k), plain + "$")
              == Render([Text(plain), Hole(k)])
  {
    BraceText(k, plain);
    TwoPartsOk(Hole(k), Text("{" + k + "}"));
    TwoPartsOk(Text(plain), Hole(k));
    var parts, m := [Hole(k), Text("{" + k + "}")], map[k := plain + "$"];
    ReplaceIsFill(parts, false, k, plain + "$");
    assert Fill(parts, m) == [Text(plain + "$"), Text("{" + k + "}")];
    RenderTwo(Text(plain + "$"), Text("{" + k + "}"));
    RenderTwo(Text(plain), Hole(k));
  }

  lemma {:induction false} TwoPartsOk(p: Part, q: Part)
    requires if p.Text? then SafeText(p.s) else NameOk(p.name)
    requires if q.Text? then SafeText(q.s) else NameOk(q.name)
    ensures PartsOk([p, q], false)
  {
    assert [p, q][1..] == [q] && [q][1..] == [];
    assert PartsOk([q], false);
  }

  lemma {:induction false} BraceText(k: string, plain: string)
    requires NameOk(k)
    ensures SafeText("{" + k + "}")
    ensures (plain + "$") + ("{" + k + "}") == plain + Placeholder(k)
  {
  }

  lemma {:induction false} ReplaceFirst(text: string, k: string, rest: seq<string>, vars: Vars)
    requires k in vars && forall n <- rest :: n in vars
    ensures forall n <- [k] + rest :: n in vars
    ensures ReplaceEach(text, [k] + rest, vars) == ReplaceEach(ReplaceAll(text, Placeholder(k), vars[k]), rest, vars)
  {
    assert ([k] + rest)[1..] == rest;
  }

  lemma {:induction false} TrailingDollarText(k: string, plain: string, vars: Vars, before: seq<string>,
      rest: seq<string>)
    requires k in vars && NameOk(k) && SafeText(plain) && vars[k] == plain + "$"
    requires forall n <- before :: n in vars && NameOk(n) && n != k
    requires forall n <- rest :: n in vars && NameOk(n) && n != k
    ensures forall n <- before + ([k] + rest) :: n in vars
    ensures ReplaceEach(Render([Hole(k), Text("{" + k + "}")]), before + ([k] + rest), vars)
              == Render([Text(plain), Hole(k)])
  {
    var parts := [Hole(k), Text("{" + k + "}")];
    DollarBecomesHole(k, plain);
    forall n ensures n in before + ([k] + rest) <==> n in before || n == k || n in rest {
    }
    ReplaceInTwo(Render(parts), before, [k] + rest, vars);
    OthersLeaveParts(parts, before, vars);
    ReplaceFirst(Render(parts), k, rest, vars);
    OthersLeaveParts([Text(plain), Hole(k)], rest, vars);
  }

  lemma {:induction false} SplitAt(order: seq<string>, k: string) returns (before: seq<string>, rest: seq<string>)
    requires k in order
    ensures order == before + ([k] + rest)
  {
    var i :| 0 <= i < |order| && order[i] == k;
    before, rest := order[..i], order[i + 1..];
  }

  lemma {:induction false} OnlyOnce(before: seq<string>, k: string, rest: seq<string>)
    requires NoDuplicates(before + ([k] + rest))
    ensures forall n <- before :: n in before + ([k] + rest) && n != k
    ensures forall n <- rest :: n in before + ([k] + rest) && n != k
  {
    var all := before + ([k] + rest);
    assert all[|before|] == k;
    forall n <- before ensures n in all && n != k {
      var j :| 0 <= j < |before| && before[j] == n;
      assert all[j] == n;
    }
    forall n <- rest ensures n in all && n != k {
      var j :| 0 <= j < |rest| && rest[j] == n;
      assert all[|before| + 1 + j] == n;
    }
  }

  /** A value that merely ends in a dollar sign, with no placeholder in it: before a brace in the template it opens
      one, and under every order of the map the loop overwrites the value that was given. */
  lemma {:induction false} TrailingDollarLosesValue(k: string, plain: string, vars: Vars, order: seq<string>,
      bytes: seq<Byte>)
    requires (forall n <- vars.Keys :: NameOk(n)) && IsMapOrder(order, vars) && |bytes| >= 16
    requires k in vars && SafeText(plain) && vars[k] == plain + "$"
    ensures PartsOk([Hole(k), Text("{" + k + "}")], false)
    ensures var r := AutoFill(ReplaceEach(Render([Hole(k), Text("{" + k + "}")]), order, vars), vars, bytes);
            r.Filled? && r.vars == vars[k := HexFrom(bytes, 32).value] && FreshHex(HexFrom(bytes, 32).value)
  {
    assert k in Elements(order);
    var before, rest := SplitAt(order, k);
    OnlyOnce(before, k, rest);
    DollarBecomesHole(k, plain);
    TrailingDollarText(k, plain, vars, before, rest);
    RenderTwo(Text(plain), Hole(k));
    LeftoverIsOverwritten(plain, k, vars, bytes);
  }
}
