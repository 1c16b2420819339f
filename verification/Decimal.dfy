/** Decimal text as strconv writes and reads it: shared by the proof-of-work header and the syslog frames. */
module Decimal {
  import opened Wrappers

  predicate IsDigit(c: char) { '0' <= c <= '9' }

  predicate AllDigits(s: string) { forall i :: 0 <= i < |s| ==> IsDigit(s[i]) }

  function DigitChar(d: nat): (c: char)
    requires d < 10
    ensures IsDigit(c) && c as int - '0' as int == d
  {
    ('0' as int + d) as char
  }

  /** strconv.FormatUint in base ten. */
  function Show(n: nat): (s: string)
    ensures s != "" && AllDigits(s)
  {
    if n < 10 then [DigitChar(n)] else Show(n / 10) + [DigitChar(n % 10)]
  }

  function Value(s: string): (n: nat)
    requires AllDigits(s)
  {
    if s == "" then 0 else Value(s[..|s| - 1]) * 10 + (s[|s| - 1] as int - '0' as int)
  }

  /** strconv.ParseUint in base ten, for values below `limit`. */
  function Read(s: string, limit: nat): (r: Option<nat>) {
    if s == "" || !AllDigits(s) || Value(s) >= limit then None else Some(Value(s))
  }

  lemma {:induction false} ValueOfShow(n: nat)
    ensures Value(Show(n)) == n
  {
    if n >= 10 {
      ValueOfShow(n / 10);
      var s := Show(n);
      assert s[..|s| - 1] == Show(n / 10);
    }
  }

  lemma {:induction false} ReadOfShow(n: nat, limit: nat)
    requires n < limit
    ensures Read(Show(n), limit) == Some(n)
  {
    ValueOfShow(n);
  }
}
