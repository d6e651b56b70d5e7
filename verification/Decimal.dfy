/** Decimal text of natural numbers, as `format!("{n}")` writes it, and the parser that reads it back. */
module Decimal {
  import opened Options

  function Digit(n: nat): char
    requires n < 10
  {
    ('0' as int + n) as char
  }

  function Decimal(n: nat): (r: string)
    ensures r != "" && forall c | c in r :: '0' <= c <= '9'
  {
    if n < 10 then [Digit(n)] else Decimal(n / 10) + [Digit(n % 10)]
  }

  /** `str::parse::<usize>`, with values unbounded: digits, after at most one plus sign. */
  function Parse(s: string): Option<nat> {
    var digits := if s != "" && s[0] == '+' then s[1..] else s;
    if digits == "" then None else ParseDigits(digits)
  }

  function ParseDigits(s: string): Option<nat> {
    if s == "" then Some(0)
    else
      var last := s[|s| - 1];
      if !('0' <= last <= '9') then None
      else
        match ParseDigits(s[..|s| - 1])
        case None => None
        case Some(front) => Some(10 * front + (last as int - '0' as int))
  }

  lemma ParseDecimal(n: nat)
    ensures Parse(Decimal(n)) == Some(n)
  {
    ParseDigitsDecimal(n);
    assert Decimal(n)[0] in Decimal(n);
  }

  lemma {:induction false} ParseDigitsDecimal(n: nat)
    ensures ParseDigits(Decimal(n)) == Some(n)
  {
    if n >= 10 {
      ParseDigitsDecimal(n / 10);
      var s := Decimal(n);
      assert s[..|s| - 1] == Decimal(n / 10);
    } else {
      var s := [Digit(n)];
      assert s[..|s| - 1] == "";
      assert ParseDigits(s) == Some(n);
    }
  }

  lemma {:induction false} DigitsIff(s: string)
    ensures ParseDigits(s).Some? <==> forall c | c in s :: '0' <= c <= '9'
  {
    if s != "" {
      var front, last := s[..|s| - 1], s[|s| - 1];
      DigitsIff(front);
      assert s == front + [last];
      assert last in s && forall c | c in front :: c in s;
    }
  }

  /** Digits and nothing else, after at most one plus sign, which changes nothing. */
  lemma ParseIff(s: string)
    ensures Parse(s).Some? <==>
            var digits := if s != "" && s[0] == '+' then s[1..] else s;
            digits != "" && forall c | c in digits :: '0' <= c <= '9'
    ensures (s != "" ==> s[0] != '+') ==> Parse("+" + s) == Parse(s)
  {
    DigitsIff(if s != "" && s[0] == '+' then s[1..] else s);
    assert ("+" + s)[1..] == s;
  }
}
