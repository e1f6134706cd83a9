/** Printing and parsing 64-bit integers, as cursors do. */
module Decimal {
  import opened Options

  const MIN_INT64: int := -0x8000_0000_0000_0000
  const MAX_INT64: int := 0x7FFF_FFFF_FFFF_FFFF

  function Digit(d: nat): char
    requires d < 10
  {
    '0' + d as char
  }

  function PrintNat(n: nat): string {
    if n < 10 then [Digit(n)] else PrintNat(n / 10) + [Digit(n % 10)]
  }

  /** strconv.FormatInt in base 10. */
  function Print(n: int): string {
    if n < 0 then "-" + PrintNat(-n) else PrintNat(n)
  }

  function ParseNat(s: string): Option<nat>
    decreases |s|
  {
    if s == "" || !('0' <= s[|s| - 1] <= '9') then None else
    var d := (s[|s| - 1] - '0') as nat;
    if |s| == 1 then Some(d) else
    match ParseNat(s[..|s| - 1])
    case None => None
    case Some(n) => Some(10 * n + d)
  }

  /** strconv.ParseInt in base 10 for 64 bits: an optional sign, digits, and a range check. */
  function Parse(s: string): Option<int> {
    if s == "" then None else
    var negative, digits := s[0] == '-', if s[0] in {'-', '+'} then s[1..] else s;
    match ParseNat(digits)
    case None => None
    case Some(n) =>
      var v: int := if negative then 0 - n else n;
      if MIN_INT64 <= v <= MAX_INT64 then Some(v) else None
  }

  lemma {:induction false} ParsePrintNat(n: nat)
    ensures ParseNat(PrintNat(n)) == Some(n)
    ensures PrintNat(n) != "" && forall i | 0 <= i < |PrintNat(n)| :: '0' <= PrintNat(n)[i] <= '9'
  {
    if n >= 10 {
      ParsePrintNat(n / 10);
      var s := PrintNat(n);
      assert s[..|s| - 1] == PrintNat(n / 10);
    }
  }

  /** Parsing inverts printing on the whole 64-bit range. */
  lemma {:induction false} ParsePrint(n: int)
    requires MIN_INT64 <= n <= MAX_INT64
    ensures Parse(Print(n)) == Some(n)
    ensures Print(n) != "" && '|' !in Print(n)
  {
    ParsePrintNat(if n < 0 then -n else n);
    if n < 0 {
      assert Print(n)[1..] == PrintNat(-n);
    }
  }
}
