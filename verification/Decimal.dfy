/** Unsigned 64-bit counters that are stored as decimal text. */
module Decimal {
  import opened Wrappers

  const MAX_U64 := 18446744073709551615

  predicate IsDigit(c: char) {
    '0' <= c <= '9'
  }

  function DigitOf(n: nat): char
    requires n < 10
  {
    ('0' as int + n) as char
  }

  function DigitValue(c: char): nat
    requires IsDigit(c)
  {
    c as int - '0' as int
  }

  predicate AllDigits(s: string) {
    forall i :: 0 <= i < |s| ==> IsDigit(s[i])
  }

  /** The number that a run of digits denotes. */
  function Value(s: string): nat
    requires AllDigits(s)
  {
    if s == "" then 0 else 10 * Value(s[..|s| - 1]) + DigitValue(s[|s| - 1])
  }

  /** The decimal rendering without leading zeros. */
  function Print(n: nat): string {
    if n < 10 then [DigitOf(n)] else Print(n / 10) + [DigitOf(n % 10)]
  }

  /** The pattern of the source: a lone zero, or up to twenty digits of which the first is not zero. */
  predicate MatchesPattern(s: string) {
    s == "0" || (1 <= |s| <= 20 && AllDigits(s) && s[0] != '0')
  }

  predicate IsU64Text(s: string) {
    MatchesPattern(s) && Value(s) <= MAX_U64
  }

  lemma {:induction false} PrintIsDigits(n: nat)
    ensures AllDigits(Print(n)) && Print(n) != ""
    ensures Value(Print(n)) == n
    ensures n > 0 ==> Print(n)[0] != '0'
  {
    if n >= 10 {
      PrintIsDigits(n / 10);
      assert Print(n)[..|Print(n)| - 1] == Print(n / 10);
    } else {
      assert Print(n)[..0] == "";
    }
  }

  lemma {:induction false} PrintOfValue(s: string)
    requires s != "" && AllDigits(s) && (s[0] == '0' ==> |s| == 1)
    ensures Print(Value(s)) == s
    ensures s[0] != '0' ==> Value(s) > 0
  {
    var rest, last := s[..|s| - 1], s[|s| - 1];
    assert s == rest + [last];
    assert DigitOf(DigitValue(last)) == last;
    if rest != "" {
      PrintOfValue(rest);
      assert Value(s) / 10 == Value(rest) && Value(s) % 10 == DigitValue(last);
    }
  }

  function Power10(n: nat): nat {
    if n == 0 then 1 else 10 * Power10(n - 1)
  }

  lemma {:induction false} PrintLength(n: nat, width: nat)
    requires width > 0 && n < Power10(width)
    ensures |Print(n)| <= width
  {
    if n >= 10 {
      assert width > 1;
      PrintLength(n / 10, width - 1);
    }
  }

  lemma TwentyDigits()
    ensures MAX_U64 < Power10(20)
  {
    assert Power10(5) == 100000;
    assert Power10(10) == 100000 * Power10(5);
    assert Power10(15) == 100000 * Power10(10);
    assert Power10(20) == 100000 * Power10(15);
  }

  /** The accepted texts are exactly the renderings of the numbers up to 2^64 - 1. */
  lemma U64TextIffRendering(s: string)
    ensures IsU64Text(s) <==> exists n: nat :: n < 0x1_0000_0000_0000_0000 && s == Print(n)
    ensures IsU64Text(s) ==> Print(Value(s)) == s
  {
    if IsU64Text(s) {
      PrintOfValue(s);
    }
    forall n: nat | n <= MAX_U64 && s == Print(n)
      ensures IsU64Text(s)
    {
      PrintIsU64(n);
    }
  }

  lemma PrintIsU64(n: nat)
    requires n <= MAX_U64
    ensures IsU64Text(Print(n)) && Value(Print(n)) == n
  {
    PrintIsDigits(n);
    TwentyDigits();
    PrintLength(n, 20);
  }

  /** Validation parses and prints again; a rejected text raises. */
  function ValidateU64(s: string): (r: Option<string>)
    ensures r.Some? ==> AllDigits(r.value)
  {
    if MatchesPattern(s) && Value(s) <= MAX_U64 then PrintIsDigits(Value(s)); Some(Print(Value(s))) else None
  }

  /** Validation returns what it accepts unchanged. */
  lemma ValidateUnchanged(s: string)
    ensures ValidateU64(s) == if IsU64Text(s) then Some(s) else None
  {
    U64TextIffRendering(s);
  }

  predicate IsControl(c: char) {
    c as int <= 0x1f || 0x7f <= c as int <= 0x9f
  }

  /** The counter check of the hosted page: nonempty, no control character, the pattern, and the bound. */
  predicate HostedCounter(s: string) {
    s != "" && (forall i :: 0 <= i < |s| ==> !IsControl(s[i])) && MatchesPattern(s) && Value(s) <= MAX_U64
  }

  /** The hosted page accepts the same counters as the extension. */
  lemma HostedAcceptsTheSame(s: string)
    ensures HostedCounter(s) <==> ValidateU64(s).Some?
  {
    if ValidateU64(s).Some? {
      forall i | 0 <= i < |s|
        ensures !IsControl(s[i])
      {
        assert s == "0" || IsDigit(s[i]);
      }
    }
  }

  /** The counter after `s`, through parse and print. */
  function Increment(s: string): Option<string> {
    var valid := ValidateU64(s);
    if valid.None? then None
    else
      var current := Value(valid.value);
      Some(Print(if current == MAX_U64 then current else current + 1))
  }

  function Saturated(n: nat): nat {
    if n < MAX_U64 then n else MAX_U64
  }

  /** Increment is the saturating successor on the denoted numbers. */
  lemma IncrementIsSaturatingSuccessor(n: nat)
    requires n <= MAX_U64
    ensures Increment(Print(n)) == Some(Print(Saturated(n + 1)))
  {
    PrintIsU64(n);
  }

  /** The same on accepted texts. */
  lemma IncrementText(s: string)
    requires IsU64Text(s)
    ensures Increment(s).Some? && IsU64Text(Increment(s).value)
    ensures Value(Increment(s).value) == Saturated(Value(s) + 1)
  {
    U64TextIffRendering(s);
    IncrementIsSaturatingSuccessor(Value(s));
    PrintIsU64(Saturated(Value(s) + 1));
  }
}
