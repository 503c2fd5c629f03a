/** Arbitrary-precision integers as decimal text: how amounts are stored, and that reading them back loses
    nothing. */
module Decimal {
  import opened Evm

  function Digit(d: nat): char
    requires d < 10
  {
    '0' + d as char
  }

  function NatText(n: nat): (s: string)
    ensures |s| > 0 && forall i :: 0 <= i < |s| ==> '0' <= s[i] <= '9'
  {
    if n < 10 then [Digit(n)] else NatText(n / 10) + [Digit(n % 10)]
  }

  function ToText(n: int): string {
    if n < 0 then "-" + NatText(-n) else NatText(n)
  }

  /** Decimal digits only, at least one, leading zeros allowed. */
  function ParseDigits(s: string): Option<nat> {
    if s == "" then None
    else
      var last := s[|s| - 1];
      if !('0' <= last <= '9') then None
      else
        var d := last as nat - '0' as nat;
        if |s| == 1 then Some(d)
        else
          match ParseDigits(s[..|s| - 1])
          case None => None
          case Some(n) => Some(10 * n + d)
  }

  /** An optional sign, then digits. */
  function Parse(s: string): Option<int> {
    if s != "" && s[0] == '-' then
      var digits: Option<int> := ParseDigits(s[1..]);
      match digits
      case None => None
      case Some(n) => Some(-n)
    else if s != "" && s[0] == '+' then ParseDigits(s[1..])
    else ParseDigits(s)
  }

  lemma {:induction false} ParseNatText(n: nat)
    ensures ParseDigits(NatText(n)) == Some(n)
  {
    if n >= 10 {
      var s := NatText(n);
      assert s[..|s| - 1] == NatText(n / 10);
      ParseNatText(n / 10);
    }
  }

  /** Every integer survives being stored as text. */
  lemma RoundTrip(n: int)
    ensures Parse(ToText(n)) == Some(n)
  {
    ParseNatText(if n < 0 then -n else n);
    if n < 0 {
      assert ToText(n)[1..] == NatText(-n);
    }
  }

  /** The text is the canonical one: digits, no leading zero but in "0", and a minus sign exactly before negatives. */
  lemma {:induction false} CanonicalNat(n: nat)
    ensures n < 10 ==> |NatText(n)| == 1
    ensures n > 0 ==> NatText(n)[0] != '0'
  {
    if n >= 10 {
      CanonicalNat(n / 10);
    }
  }

  lemma Canonical(n: int)
    ensures n >= 0 ==> '0' <= ToText(n)[0] <= '9'
    ensures n < 0 ==> ToText(n)[0] == '-' && |ToText(n)| > 1 && '1' <= ToText(n)[1] <= '9'
    ensures n > 0 ==> ToText(n)[0] != '0'
    ensures ToText(0) == "0"
  {
    CanonicalNat(if n < 0 then -n else n);
    assert Digit(0) == '0';
  }

  predicate AllDigits(s: string) {
    s != "" && forall i :: 0 <= i < |s| ==> '0' <= s[i] <= '9'
  }

  lemma {:induction false} DigitsParse(s: string)
    ensures ParseDigits(s).Some? <==> AllDigits(s)
  {
    if |s| > 1 {
      DigitsParse(s[..|s| - 1]);
    }
  }

  /** What reads as a number: digits, at least one, after an optional sign. */
  lemma ParseIff(s: string)
    ensures Parse(s).Some? <==> AllDigits(if s != "" && (s[0] == '-' || s[0] == '+') then s[1..] else s)
  {
    DigitsParse(s);
    if s != "" { DigitsParse(s[1..]); }
  }
}
