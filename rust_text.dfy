/** The pieces of Rust's standard library that the client's decision logic
    leans on, stated exactly: the `i32` range, `str::split` on one character,
    `str::parse::<i32>`, and the `{}` and `{:02}` formats of an integer. */
module RustText {

  datatype Option<+T> = None | Some(value: T)

  const MinI32: int := -0x8000_0000
  const MaxI32: int := 0x7fff_ffff

  /** Rust's `i32`. */
  type I32 = x: int | MinI32 <= x <= MaxI32

  predicate IsDigit(c: char) { '0' <= c <= '9' }

  predicate AllDigits(s: string) { forall i :: 0 <= i < |s| ==> IsDigit(s[i]) }

  /** The characters a formatted integer is made of: digits and the minus sign. */
  predicate IsNumeral(c: char) { IsDigit(c) || c == '-' }

  predicate AllNumeral(s: string) { forall i :: 0 <= i < |s| ==> IsNumeral(s[i]) }

  function DigitValue(c: char): nat
    requires IsDigit(c)
  {
    c as int - '0' as int
  }

  function DigitChar(d: nat): (c: char)
    requires d < 10
    ensures IsDigit(c) && DigitValue(c) == d
  {
    ('0' as int + d) as char
  }

  /** The value of a run of decimal digits, most significant first. */
  function DigitsValue(s: string): nat
    requires AllDigits(s)
  {
    if s == [] then 0 else 10 * DigitsValue(s[..|s| - 1]) + DigitValue(s[|s| - 1])
  }

  /** `str::parse::<i32>`: an optional `+` or `-`, then one or more ASCII
      digits (leading zeros allowed), whose value must fit in `i32`;
      anything else is an error, here `None`. */
  function ParseI32(s: string): (r: Option<I32>)
    ensures r.Some? ==> |s| > 0 && IsDigit(s[|s| - 1])
    ensures r.Some? ==> s[0] == '+' || s[0] == '-' || IsDigit(s[0])
    ensures r.Some? ==> forall i :: 0 < i < |s| ==> IsDigit(s[i])
    ensures r.Some? ==> (r.value < 0 ==> s[0] == '-')
  {
    if s == [] then None
    else
      var digits := if s[0] == '+' || s[0] == '-' then s[1..] else s;
      if digits == [] || !AllDigits(digits) then None
      else
        var magnitude: int := DigitsValue(digits);
        var v := if s[0] == '-' then -magnitude else magnitude;
        if MinI32 <= v <= MaxI32 then Some(v) else None
  }

  /** `{}` of a non-negative integer: its decimal digits, without leading zeros. */
  function NatText(n: nat): (r: string)
    ensures |r| >= 1 && AllDigits(r) && DigitsValue(r) == n
    ensures |r| > 1 ==> r[0] != '0'
    ensures n >= 10 <==> |r| >= 2
    ensures n < 100 ==> |r| <= 2
  {
    if n < 10 then [DigitChar(n)]
    else
      var r := NatText(n / 10) + [DigitChar(n % 10)];
      assert r[..|r| - 1] == NatText(n / 10);
      r
  }

  /** `{}` of an integer: a minus sign for negative values, then the digits. */
  function IntText(n: int): (r: string)
    ensures |r| >= 1 && AllNumeral(r)
  {
    if n < 0 then "-" + NatText(-n) else NatText(n)
  }

  /** `str::parse::<i32>` reads back what `{}` writes. */
  lemma IntTextReadsBack(n: I32)
    ensures ParseI32(IntText(n)) == Some(n)
  {
    if n < 0 {
      ParseNegative(NatText(-(n as int)));
    } else {
      ParseUnsigned(NatText(n));
    }
  }

  /** `{:02}`: the sign, then zeros up to a width of two, then the digits.
      Values that need more room are printed in full, never truncated. */
  function Pad2(n: int): (r: string)
    ensures |r| >= 2 && AllNumeral(r)
    ensures 0 <= n <= 99 ==> |r| == 2 && AllDigits(r)
  {
    if n < 0 then IntText(n)
    else if n < 10 then "0" + NatText(n)
    else NatText(n)
  }

  /** `str::parse::<i32>` reads back what `{:02}` writes, for every `i32`. */
  lemma Pad2ReadsBack(n: I32)
    ensures ParseI32(Pad2(n)) == Some(n)
  {
    if n < 0 {
      IntTextReadsBack(n);
    } else if n < 10 {
      LeadingZero(NatText(n));
      ParseUnsigned("0" + NatText(n));
    } else {
      ParseUnsigned(NatText(n));
    }
  }

  /** How `str::parse::<i32>` reads a digit run with no sign, with `+`, and with `-`. */
  lemma ParseUnsigned(d: string)
    requires d != [] && AllDigits(d)
    ensures ParseI32(d) == if DigitsValue(d) <= MaxI32 then Some(DigitsValue(d)) else None
  {
  }

  lemma ParsePlus(d: string)
    requires d != [] && AllDigits(d)
    ensures ParseI32("+" + d) == if DigitsValue(d) <= MaxI32 then Some(DigitsValue(d)) else None
  {
    assert ("+" + d)[1..] == d;
  }

  lemma ParseNegative(d: string)
    requires d != [] && AllDigits(d)
    ensures ParseI32("-" + d) == if DigitsValue(d) <= -MinI32 then Some(-(DigitsValue(d) as int)) else None
  {
    assert ("-" + d)[1..] == d;
  }

  function Count(s: string, c: char): nat
  {
    if s == [] then 0 else (if s[0] == c then 1 else 0) + Count(s[1..], c)
  }

  /** Puts the pieces back together with `sep` between them. */
  function Join(parts: seq<string>, sep: char): string
    requires |parts| >= 1
  {
    if |parts| == 1 then parts[0] else parts[0] + [sep] + Join(parts[1..], sep)
  }

  /** `str::split(sep)`: the pieces between occurrences of `sep`, one more
      piece than there are separators (so the empty text gives one empty piece). */
  function Split(s: string, sep: char): (r: seq<string>)
    ensures |r| == Count(s, sep) + 1
    ensures forall i :: 0 <= i < |r| ==> sep !in r[i]
    ensures Join(r, sep) == s
  {
    if s == [] then [""]
    else if s[0] == sep then
      var rest := Split(s[1..], sep);
      assert s == [sep] + s[1..];
      [""] + rest
    else
      var rest := Split(s[1..], sep);
      var r := [[s[0]] + rest[0]] + rest[1..];
      assert r[1..] == rest[1..];
      assert Join(r, sep) == [s[0]] + Join(rest, sep);
      assert s == [s[0]] + s[1..];
      r
  }

  /** Splitting text with exactly one separator gives the two sides. */
  lemma {:induction false} SplitAround(a: string, b: string, sep: char)
    requires sep !in a && sep !in b
    ensures Split(a + [sep] + b, sep) == [a, b]
  {
    if a == [] {
      assert a + [sep] + b == [sep] + b;
      assert ([sep] + b)[1..] == b;
      SplitNone(b, sep);
    } else {
      var s := a + [sep] + b;
      assert s[1..] == a[1..] + [sep] + b;
      SplitAround(a[1..], b, sep);
      assert [a[0]] + a[1..] == a;
    }
  }

  /** Text without the separator splits into itself. */
  lemma {:induction false} SplitNone(s: string, sep: char)
    requires sep !in s
    ensures Split(s, sep) == [s]
  {
    if s != [] {
      assert sep !in s[1..];
      SplitNone(s[1..], sep);
      assert [s[0]] + s[1..] == s;
    }
  }

  /** Leading zeros do not change the value of a digit run. */
  lemma {:induction false} LeadingZero(s: string)
    requires AllDigits(s)
    ensures AllDigits("0" + s) && DigitsValue("0" + s) == DigitsValue(s)
  {
    if s != [] {
      var t := "0" + s;
      assert t[..|t| - 1] == "0" + s[..|s| - 1];
      LeadingZero(s[..|s| - 1]);
    }
  }

  /** `str::parse::<i32>` reads back every decimal text of a non-negative
      `i32`, with or without leading zeros and with an optional `+`. */
  lemma {:induction false} ParseI32Decimal(zeros: nat, n: nat)
    requires n <= MaxI32
    ensures ParseI32(Zeros(zeros) + NatText(n)) == Some(n)
    ensures ParseI32("+" + (Zeros(zeros) + NatText(n))) == Some(n)
  {
    ZerosValue(zeros, NatText(n));
    ParseDigitRun(Zeros(zeros) + NatText(n), n);
  }

  /** With a `-` in front the same texts read as the negated value, so `-0` is zero. */
  lemma {:induction false} ParseI32NegatedDecimal(zeros: nat, n: nat)
    requires n <= MaxI32
    ensures ParseI32("-" + (Zeros(zeros) + NatText(n))) == Some(-(n as int))
  {
    ZerosValue(zeros, NatText(n));
    ParseDigitRun(Zeros(zeros) + NatText(n), n);
  }

  lemma ParseDigitRun(t: string, n: nat)
    requires t != [] && AllDigits(t) && DigitsValue(t) == n && n <= MaxI32
    ensures ParseI32(t) == Some(n)
    ensures ParseI32("+" + t) == Some(n)
    ensures ParseI32("-" + t) == Some(-(n as int))
  {
    ParseUnsigned(t);
    ParsePlus(t);
    ParseNegative(t);
  }

  function Zeros(k: nat): (r: string)
    ensures |r| == k && AllDigits(r)
  {
    if k == 0 then "" else "0" + Zeros(k - 1)
  }

  lemma {:induction false} ZerosValue(k: nat, s: string)
    requires AllDigits(s)
    ensures AllDigits(Zeros(k) + s) && DigitsValue(Zeros(k) + s) == DigitsValue(s)
  {
    if k > 0 {
      ZerosValue(k - 1, s);
      LeadingZero(Zeros(k - 1) + s);
      assert Zeros(k) == "0" + Zeros(k - 1);
      assert Zeros(k) + s == "0" + (Zeros(k - 1) + s);
    } else {
      assert Zeros(k) + s == s;
    }
  }

  /** Inputs `str::parse::<i32>` refuses: the empty text, a sign alone,
      any character that is not a digit after the sign, and values beyond `i32`. */
  lemma ParseI32Rejects(s: string, n: nat)
    ensures ParseI32("") == None && ParseI32("+") == None && ParseI32("-") == None
    ensures |s| > 0 && s[0] != '+' && s[0] != '-' && !IsDigit(s[0]) ==> ParseI32(s) == None
    ensures (exists i :: 0 < i < |s| && !IsDigit(s[i])) ==> ParseI32(s) == None
    ensures n > MaxI32 ==> ParseI32(NatText(n)) == None && ParseI32("+" + NatText(n)) == None
    ensures n > MaxI32 + 1 ==> ParseI32("-" + NatText(n)) == None
  {
    var t := NatText(n);
    ParseUnsigned(t);
    ParsePlus(t);
    ParseNegative(t);
    if exists i :: 0 < i < |s| && !IsDigit(s[i]) {
      var i :| 0 < i < |s| && !IsDigit(s[i]);
      if s[0] == '+' || s[0] == '-' {
        assert s[1..][i - 1] == s[i];
      }
    }
  }
}
