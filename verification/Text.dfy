/** Decimal numbers and separated fields, as the standard library prints, parses and splits them. */
module Text {
  import opened Common

  predicate IsDigit(c: char) {
    '0' <= c <= '9'
  }

  predicate AllDigits(s: string) {
    forall i :: 0 <= i < |s| ==> IsDigit(s[i])
  }

  function DigitChar(d: nat): (c: char)
    requires d < 10
    ensures IsDigit(c)
  {
    '0' + d as char
  }

  function DigitValue(c: char): (d: nat)
    requires IsDigit(c)
    ensures d < 10 && DigitChar(d) == c
  {
    (c - '0') as nat
  }

  /** `n.to_string()` */
  function Decimal(n: nat): (s: string)
    ensures s != [] && AllDigits(s)
  {
    if n < 10 then [DigitChar(n)] else Decimal(n / 10) + [DigitChar(n % 10)]
  }

  function DecimalInt(n: int): string {
    if n < 0 then "-" + Decimal(-n) else Decimal(n)
  }

  function Value(s: string): nat
    requires AllDigits(s)
  {
    if s == [] then 0 else 10 * Value(s[..|s| - 1]) + DigitValue(s[|s| - 1])
  }

  /** `s.parse::<u64>()`, for the type whose largest value is `max`. */
  function ParseUnsigned(s: string, max: nat): (r: Option<nat>)
    ensures r.Some? ==> r.value <= max
  {
    var digits := if s != [] && s[0] == '+' then s[1..] else s;
    if digits == [] || !AllDigits(digits) || Value(digits) > max then None else Some(Value(digits))
  }

  /** `s.parse::<i64>()` */
  function ParseI64(s: string): (r: Option<int>)
    ensures r.Some? ==> -I64_MAX - 1 <= r.value <= I64_MAX
  {
    if s != [] && s[0] == '-' then
      var digits := s[1..];
      if digits == [] || !AllDigits(digits) || Value(digits) > I64_MAX + 1 then None
      else
        var n: int := Value(digits);
        Some(-n)
    else
      var unsigned := ParseUnsigned(s, I64_MAX);
      if unsigned.None? then None else Some(unsigned.value as int)
  }

  lemma {:induction false} ValueOfDecimal(n: nat)
    ensures Value(Decimal(n)) == n
  {
    if n >= 10 {
      ValueOfDecimal(n / 10);
      var s := Decimal(n);
      assert s[..|s| - 1] == Decimal(n / 10);
    }
  }

  lemma ParseDecimal(n: nat, max: nat)
    requires n <= max
    ensures ParseUnsigned(Decimal(n), max) == Some(n)
  {
    ValueOfDecimal(n);
  }

  lemma ParseDecimalInt(n: int)
    requires -I64_MAX - 1 <= n <= I64_MAX
    ensures ParseI64(DecimalInt(n)) == Some(n)
  {
    hide Decimal, Value;
    if n < 0 {
      ValueOfDecimal(-n);
      assert DecimalInt(n)[1..] == Decimal(-n);
    } else {
      ValueOfDecimal(n);
    }
  }

  /** A number may be written with a plus sign and with leading zeros. */
  lemma {:induction false} ParseLoosely(zeros: nat, n: nat, max: nat)
    requires n <= max
    ensures var s := seq(zeros, _ => '0') + Decimal(n);
      ParseUnsigned(s, max) == Some(n) && ParseUnsigned("+" + s, max) == Some(n)
  {
    var front := seq(zeros, _ => '0');
    var s := front + Decimal(n);
    assert s[0] != '+' by {
      assert zeros > 0 ==> s[0] == front[0];
      assert zeros == 0 ==> s == Decimal(n);
    }
    assert AllDigits(s);
    ValueWithZeros(zeros, Decimal(n));
    ValueOfDecimal(n);
    assert ("+" + s)[1..] == s;
  }

  lemma {:induction false} ValueWithZeros(zeros: nat, digits: string)
    requires AllDigits(digits)
    ensures var s := seq(zeros, _ => '0') + digits; AllDigits(s) && Value(s) == Value(digits)
  {
    var front := seq(zeros, _ => '0');
    var s := front + digits;
    if digits != [] {
      var init := digits[..|digits| - 1];
      ValueWithZeros(zeros, init);
      assert s[..|s| - 1] == front + init;
    } else if zeros > 0 {
      ValueWithZeros(zeros - 1, []);
      assert s[..|s| - 1] == seq(zeros - 1, _ => '0') + [];
    }
  }

  lemma DecimalInjective(m: nat, n: nat)
    requires Decimal(m) == Decimal(n)
    ensures m == n
  {
    ValueOfDecimal(m);
    ValueOfDecimal(n);
  }

  predicate Contains(s: string, c: char) {
    exists i :: 0 <= i < |s| && s[i] == c
  }

  lemma DecimalIntHasNo(n: int, c: char)
    requires !IsDigit(c) && c != '-'
    ensures !Contains(DecimalInt(n), c)
  {
  }

  /** The fields of `s` between occurrences of `c`; a positive `limit` leaves the rest of the string, separators
      and all, in the last of that many fields. `s.split(c)` for limit 0, `s.splitn(limit, c)` otherwise. */
  function Fields(s: string, c: char, limit: nat): (parts: seq<string>)
    ensures parts != []
  {
    if s == [] || limit == 1 then [s]
    else if s[0] == c then [""] + Fields(s[1..], c, if limit == 0 then 0 else limit - 1)
    else
      var rest := Fields(s[1..], c, limit);
      [[s[0]] + rest[0]] + rest[1..]
  }

  lemma {:induction false} FieldsOfJoin(a: string, c: char, b: string, limit: nat)
    requires !Contains(a, c) && limit != 1
    ensures Fields(a + [c] + b, c, limit) == [a] + Fields(b, c, if limit == 0 then 0 else limit - 1)
  {
    var s := a + [c] + b;
    if a == [] {
      assert s[1..] == b;
    } else {
      assert a[0] != c;
      assert s[1..] == a[1..] + [c] + b;
      assert forall i :: 0 <= i < |a| - 1 ==> a[1..][i] == a[i + 1];
      FieldsOfJoin(a[1..], c, b, limit);
      assert [a[0]] + a[1..] == a;
    }
  }

  lemma {:induction false} FieldsOfOne(a: string, c: char, limit: nat)
    requires !Contains(a, c)
    ensures Fields(a, c, limit) == [a]
  {
    if a != [] && limit != 1 {
      assert forall i :: 0 <= i < |a| - 1 ==> a[1..][i] == a[i + 1];
      FieldsOfOne(a[1..], c, limit);
      assert [a[0]] + a[1..] == a;
    }
  }

  /** The field after the last occurrence of `c`: `s.rsplit(c).next()`. */
  function AfterLast(s: string, c: char): string {
    if !Contains(s, c) then s else AfterLast(s[1..], c)
  }

  lemma {:induction false} AfterLastOfJoin(a: string, c: char, b: string)
    requires !Contains(b, c)
    ensures AfterLast(a + [c] + b, c) == b
  {
    var s := a + [c] + b;
    assert s[|a|] == c;
    if a == [] {
      assert s[1..] == b;
    } else {
      assert s[1..] == a[1..] + [c] + b;
      AfterLastOfJoin(a[1..], c, b);
    }
  }
}
