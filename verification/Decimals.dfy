// Decimal numerals: how numbers are written into names, and how they are read back.
module Decimals {
  import opened Wrappers

  const U64_LIMIT: nat := 0x1_0000_0000_0000_0000

  type u64 = x: int | 0 <= x < U64_LIMIT

  function Digit(d: nat): char
    requires d < 10
  {
    "0123456789"[d]
  }

  function Decimal(n: nat): string {
    if n < 10 then [Digit(n)] else Decimal(n / 10) + [Digit(n % 10)]
  }

  // The numeral, padded with zeros on the left.
  function Padded(n: nat, width: nat): string {
    Zeros(width - |Decimal(n)|) + Decimal(n)
  }

  function Zeros(count: int): string {
    if count <= 0 then "" else "0" + Zeros(count - 1)
  }

  lemma {:induction false} DecimalHasNoDash(n: nat)
    ensures '-' !in Decimal(n) && Decimal(n) != []
    decreases n
  {
    if n >= 10 {
      DecimalHasNoDash(n / 10);
    }
  }

  lemma {:induction false} DecimalInjective(m: nat, n: nat)
    requires Decimal(m) == Decimal(n)
    ensures m == n
    decreases m
  {
    var s, t := Decimal(m), Decimal(n);
    if m >= 10 && n >= 10 {
      assert s[..|s| - 1] == Decimal(m / 10) && t[..|t| - 1] == Decimal(n / 10);
      assert s[|s| - 1] == Digit(m % 10) && t[|t| - 1] == Digit(n % 10);
      DecimalInjective(m / 10, n / 10);
    } else if m >= 10 {
      DecimalHasNoDash(m / 10);
    } else if n >= 10 {
      DecimalHasNoDash(n / 10);
    }
  }

  // ---------- Reading ----------

  predicate IsDigit(c: char) {
    '0' <= c <= '9'
  }

  // Digit by digit, giving up at the first step that leaves 64 bits.
  function ParseDigits(s: string): Option<u64> {
    if s == "" then Some(0)
    else
      var front, last := ParseDigits(s[..|s| - 1]), s[|s| - 1];
      if front.None? || !IsDigit(last) then None
      else
        var n := front.value * 10 + (last as int - '0' as int);
        if n < U64_LIMIT then Some(n) else None
  }

  // One leading plus sign is allowed, and there must be a digit.
  function ParseU64(s: string): Option<u64> {
    if s == "" || s == "+" then None
    else if s[0] == '+' then ParseDigits(s[1..])
    else ParseDigits(s)
  }

  // The number a row of digits stands for.
  function Numeral(s: string): nat
    requires forall k :: 0 <= k < |s| ==> IsDigit(s[k])
  {
    if s == "" then 0
    else
      assert IsDigit(s[|s| - 1]);
      Numeral(s[..|s| - 1]) * 10 + (s[|s| - 1] as int - '0' as int)
  }

  // Giving up early is no different from checking at the end: what is read is a row of
  // digits whose number fits, and nothing else is.
  lemma {:induction false} ParsesNumerals(s: string)
    ensures ParseDigits(s) ==
              if (forall k :: 0 <= k < |s| ==> IsDigit(s[k])) && Numeral(s) < U64_LIMIT then Some(Numeral(s)) else None
    decreases |s|
  {
    if s != "" {
      var front := s[..|s| - 1];
      ParsesNumerals(front);
      assert (forall k :: 0 <= k < |s| ==> IsDigit(s[k])) <==>
             IsDigit(s[|s| - 1]) && forall k :: 0 <= k < |front| ==> IsDigit(front[k]) by {
        assert forall k :: 0 <= k < |front| ==> front[k] == s[k];
      }
    }
  }

  lemma {:induction false} ParseDecimal(n: nat)
    ensures ParseDigits(Decimal(n)) == if n < U64_LIMIT then Some(n) else None
    ensures Decimal(n) != "" && IsDigit(Decimal(n)[0])
    decreases n
  {
    var s := Decimal(n);
    if n < 10 {
      assert s[..0] == "" && ParseDigits("") == Some(0);
    } else {
      assert s[..|s| - 1] == Decimal(n / 10);
      ParseDecimal(n / 10);
    }
  }

  lemma {:induction false} ParseSkipsZeros(count: int, s: string)
    ensures ParseDigits(Zeros(count) + s) == ParseDigits(s)
    decreases |s|, count
  {
    var padded := Zeros(count) + s;
    if s != "" {
      assert padded[..|padded| - 1] == Zeros(count) + s[..|s| - 1];
      ParseSkipsZeros(count, s[..|s| - 1]);
    } else if count > 0 {
      assert padded == Zeros(count);
      ZerosEnd(count);
      assert padded[..|padded| - 1] == Zeros(count - 1) + "";
      ParseSkipsZeros(count - 1, "");
    } else {
      assert padded == s;
    }
  }

  lemma {:induction false} ZerosEnd(count: int)
    requires count > 0
    ensures Zeros(count) == Zeros(count - 1) + "0"
    decreases count
  {
    if count > 1 {
      ZerosEnd(count - 1);
    }
  }

  // Reading back what was written, whatever the padding.
  lemma ParsePadded(n: nat, width: nat)
    ensures ParseU64(Padded(n, width)) == if n < U64_LIMIT then Some(n) else None
  {
    hide Decimal, ParseDigits;
    var s := Decimal(n);
    ParseDecimal(n);
    ParseSkipsZeros(width - |s|, s);
    StartsWithDigit(width - |s|, s);
  }

  lemma StartsWithDigit(count: int, s: string)
    requires s != "" && IsDigit(s[0])
    ensures Zeros(count) + s != "" && IsDigit((Zeros(count) + s)[0])
  {
    assert count > 0 ==> Zeros(count)[0] == '0';
  }
}
