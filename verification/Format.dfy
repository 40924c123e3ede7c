/** Printing and parsing numbers: `printnum`, the numeric conversions of `vprintfmt` and
    `snprintf` (sched/lib/printfmt.c), and `strtol` (sched/lib/string.c). */
module Format {

  const LONG_LIMIT: int := 0x8000_0000     // long is 32 bits

  // ---------------------------------------------------------------- numerals

  function Digit(d: nat): char
    requires d < 16
  {
    "0123456789abcdef"[d]
  }

  function Digits(num: nat, base: nat): (s: string)
    requires 2 <= base <= 16
    ensures s != []
  {
    if num < base then [Digit(num)] else Digits(num / base, base) + [Digit(num % base)]
  }

  function Pad(padc: char, count: int): string {
    if count <= 0 then [] else Pad(padc, count - 1) + [padc]
  }

  // The numeral, padded on the left to `width`.
  function Padded(num: nat, base: nat, width: int, padc: char): string
    requires 2 <= base <= 16
  {
    Pad(padc, width - |Digits(num, base)|) + Digits(num, base)
  }

  lemma {:induction false} PadLength(padc: char, count: int)
    ensures |Pad(padc, count)| == if count < 0 then 0 else count
    ensures forall i :: 0 <= i < |Pad(padc, count)| ==> Pad(padc, count)[i] == padc
  {
    if count > 0 {
      PadLength(padc, count - 1);
    }
  }

  // The length is the width or the number of digits, whichever is more.
  lemma PaddedLength(num: nat, base: nat, width: int, padc: char)
    requires 2 <= base <= 16
    ensures |Padded(num, base, width, padc)| == if width < |Digits(num, base)| then |Digits(num, base)| else width
  {
    PadLength(padc, width - |Digits(num, base)|);
  }

  // printnum prints the leading digits one column narrower, then the last one.
  lemma PaddedStep(num: nat, base: nat, width: int, padc: char)
    requires 2 <= base <= 16
    ensures base <= num ==>
      Padded(num, base, width, padc) == Padded(num / base, base, width - 1, padc) + [Digit(num % base)]
    ensures num < base ==> Padded(num, base, width, padc) == Pad(padc, width - 1) + [Digit(num % base)]
  {
    hide Digit, Pad, Digits, DigitOf;
    DigitsStep(num, base, num / base, num % base);
  }

  // %d: a minus sign, then the padded magnitude.
  function Signed(x: int, width: int, padc: char): string {
    if x < 0 then "-" + Padded(-x, 10, width, padc) else Padded(x, 10, width, padc)
  }

  // ---------------------------------------------------------------- strtol

  datatype Parsed = Parsed(value: int, end: nat)

  // The digit a character stands for, 36 for none.
  function DigitOf(c: char): (d: nat)
    ensures d <= 36
  {
    if '0' <= c <= '9' then (c - '0') as int
    else if 'a' <= c <= 'z' then (c - 'a') as int + 10
    else if 'A' <= c <= 'Z' then (c - 'A') as int + 10
    else 36
  }

  // Signed arithmetic on 32 bits.
  function Wrap(x: int): (r: int)
    ensures -LONG_LIMIT <= x < LONG_LIMIT ==> r == x
  {
    (x + LONG_LIMIT) % (2 * LONG_LIMIT) - LONG_LIMIT
  }

  // The character at `i`; past the end, the terminating '\0'.
  function CharAt(s: string, i: nat): char { if i < |s| then s[i] else '\0' }

  function Skip(s: string, i: nat): (r: nat)
    requires i <= |s|
    ensures i <= r <= |s|
    decreases |s| - i
  {
    if i < |s| && (s[i] == ' ' || s[i] == '\t') then Skip(s, i + 1) else i
  }

  function Accumulate(s: string, i: nat, val: int, base: nat): Parsed
    requires i <= |s| && base <= 36
    decreases |s| - i
  {
    if i < |s| && DigitOf(s[i]) < base then Accumulate(s, i + 1, Wrap(val * base + DigitOf(s[i])), base)
    else Parsed(val, i)
  }

  // The base in force and where the digits start.
  function Prefix(s: string, i: nat, base: nat): (r: (nat, nat))
    requires i <= |s| && base <= 36
    ensures i <= r.1 <= |s| && r.0 <= 36
  {
    if (base == 0 || base == 16) && CharAt(s, i) == '0' && CharAt(s, i + 1) == 'x' then (16, i + 2)
    else if base == 0 && CharAt(s, i) == '0' then (8, i + 1)
    else if base == 0 then (10, i)
    else (base, i)
  }

  function StrTol(s: string, base: nat): Parsed
    requires base <= 36
  {
    var i := Skip(s, 0);
    var neg, j := CharAt(s, i) == '-', if CharAt(s, i) == '+' || CharAt(s, i) == '-' then i + 1 else i;
    var p := Prefix(s, j, base);
    var r := Accumulate(s, p.1, 0, p.0);
    if neg then Parsed(Wrap(-r.value), r.end) else r
  }

  // ---------------------------------------------------------------- the value of a numeral

  predicate AllDigits(s: string, base: nat) { forall i :: 0 <= i < |s| ==> DigitOf(s[i]) < base }

  function Value(s: string, val: nat, base: nat): nat {
    if s == [] then val else Value(s[..|s| - 1], val, base) * base + DigitOf(s[|s| - 1])
  }

  lemma ValueSnoc(t: string, c: char, val: nat, base: nat)
    ensures Value(t + [c], val, base) == Value(t, val, base) * base + DigitOf(c)
  {
    assert (t + [c])[..|t|] == t;
  }

  lemma DivMod(num: nat, base: nat)
    requires 2 <= base
    ensures num == num / base * base + num % base && num % base < base
    ensures base <= num ==> num / base < num
    ensures num < base ==> num % base == num
  {
  }

  predicate Lower(s: string) { forall i :: 0 <= i < |s| ==> '0' <= s[i] <= '9' || 'a' <= s[i] <= 'z' }

  // The letter in upper case.
  function Upper(c: char): char { if 'a' <= c <= 'z' then c - 32 as char else c }

  function AllUpper(s: string): (r: string)
    ensures |r| == |s|
  {
    seq(|s|, i requires 0 <= i < |s| => Upper(s[i]))
  }

  lemma UpperDigit(c: char)
    ensures DigitOf(Upper(c)) == DigitOf(c)
  {
  }

  // Digits count alike in either case.
  lemma {:induction false} UpperValue(t: string, val: nat, base: nat)
    ensures Value(AllUpper(t), val, base) == Value(t, val, base)
    ensures AllDigits(AllUpper(t), base) <==> AllDigits(t, base)
  {
    hide DigitOf;
    forall i | 0 <= i < |t|
      ensures DigitOf(AllUpper(t)[i]) == DigitOf(t[i])
    {
      UpperDigit(t[i]);
    }
    if t != [] {
      UpperValue(t[..|t| - 1], val, base);
      assert AllUpper(t[..|t| - 1]) == AllUpper(t)[..|t| - 1];
    }
  }

  // The last digit and those before it.
  lemma DigitsStep(num: nat, base: nat, q: nat, r: nat)
    requires 2 <= base <= 16 && q == num / base && r == num % base
    ensures r < base && num == q * base + r && (base <= num ==> q < num)
    ensures Digits(num, base) == (if num < base then [] else Digits(q, base)) + [Digit(r)]
    ensures DigitOf(Digit(r)) == r && Lower([Digit(r)])
    ensures num < base ==> r == num
  {
    DivMod(num, base);
    OneDigit(r, base);
    hide Digit;
  }

  lemma {:induction false} DigitsAreDigits(num: nat, base: nat)
    requires 2 <= base <= 16
    ensures AllDigits(Digits(num, base), base) && Lower(Digits(num, base))
  {
    hide Digit, DigitOf, Digits;
    var q, r := num / base, num % base;
    DigitsStep(num, base, q, r);
    if base <= num {
      DigitsAreDigits(q, base);
    }
  }

  lemma {:induction false} DigitsSum(num: nat, base: nat)
    requires 2 <= base <= 16
    ensures Value(Digits(num, base), 0, base) == num
  {
    hide Digit, DigitOf, Value, Digits;
    var q, r := num / base, num % base;
    DigitsStep(num, base, q, r);
    if base <= num {
      DigitsSum(q, base);
      ValueSnoc(Digits(q, base), Digit(r), 0, base);
    } else {
      ValueSnoc([], Digit(r), 0, base);
      EmptyValue(0, base);
    }
  }

  lemma DigitsValue(num: nat, base: nat)
    requires 2 <= base <= 16
    ensures AllDigits(Digits(num, base), base) && Value(Digits(num, base), 0, base) == num
  {
    hide Digits, Value;
    DigitsAreDigits(num, base);
    DigitsSum(num, base);
  }

  lemma EmptyValue(val: nat, base: nat)
    ensures Value([], val, base) == val
  {
  }

  lemma OneDigit(d: nat, base: nat)
    requires d < base <= 16
    ensures DigitOf(Digit(d)) == d && Lower([Digit(d)])
  {
  }

  lemma {:induction false} ZeroDigits(count: int, base: nat)
    requires 2 <= base
    ensures AllDigits(Pad('0', count), base) && Value(Pad('0', count), 0, base) == 0
  {
    hide Value;
    if count > 0 {
      ZeroDigits(count - 1, base);
      ValueSnoc(Pad('0', count - 1), '0', 0, base);
    } else {
      EmptyValue(0, base);
    }
  }

  // Leading zeros add nothing.
  lemma {:induction false} ZerosValue(count: int, t: string, base: nat)
    requires 2 <= base && AllDigits(t, base)
    ensures AllDigits(Pad('0', count) + t, base) && Value(Pad('0', count) + t, 0, base) == Value(t, 0, base)
    decreases |t|
  {
    hide Value, Pad, DigitOf;
    ZeroDigits(count, base);
    var z := Pad('0', count);
    if t != [] {
      var u, d := t[..|t| - 1], t[|t| - 1];
      ZerosValue(count, u, base);
      assert t == u + [d] && z + t == z + u + [d];
      ValueSnoc(u, d, 0, base);
      ValueSnoc(z + u, d, 0, base);
    } else {
      assert z + t == z;
      EmptyValue(0, base);
    }
  }

  // Reading digits from left to right computes the value, as far as it fits.
  lemma {:induction false} AccumulateValue(s: string, i: nat, j: nat, base: nat)
    requires i <= j <= |s| && 2 <= base <= 36 && AllDigits(s[i..j], base)
    ensures Accumulate(s, i, 0, base) == Accumulate(s, j, Wrap(Value(s[i..j], 0, base)), base)
    decreases j - i
  {
    assert Wrap(0) == 0;
    hide Wrap;
    if i < j {
      var t := s[i..j];
      assert t[..|t| - 1] == s[i..j - 1];
      var v := Value(s[i..j - 1], 0, base);
      WrapStep(v, base, DigitOf(s[j - 1]));
      AccumulateValue(s, i, j - 1, base);
      assert t[|t| - 1] == s[j - 1];
    } else {
      assert s[i..j] == [];
    }
  }

  // Wrapping at every step is wrapping at the end.
  lemma WrapStep(v: int, base: nat, d: int)
    ensures Wrap(Wrap(v) * base + d) == Wrap(v * base + d)
  {
    var q := (v + LONG_LIMIT) / (2 * LONG_LIMIT);
    assert Wrap(v) == v - 2 * LONG_LIMIT * q;
    assert Wrap(v) * base + d == v * base + d - 2 * LONG_LIMIT * (q * base);
    WrapTurns(v * base + d, -(q * base));
  }

  lemma WrapTurns(x: int, k: int)
    ensures Wrap(x + 2 * LONG_LIMIT * k) == Wrap(x)
  {
    var m := 2 * LONG_LIMIT;
    var q, a := (x + LONG_LIMIT) / m, (x + LONG_LIMIT) % m;
    assert x + m * k + LONG_LIMIT == m * (q + k) + a;
    SameRemainder(m, q + k, a);
  }

  lemma SameRemainder(m: nat, q: int, a: nat)
    requires a < m
    ensures (m * q + a) % m == a
  {
    var x := m * q + a;
    assert m * (x / m - q) == a - x % m;
    if x / m != q {
      Multiple(m, x / m - q);
    }
  }

  lemma Multiple(m: nat, k: int)
    requires k != 0
    ensures m * k >= m || m * k + m <= 0
  {
  }

  // ---------------------------------------------------------------- what strtol reads

  predicate Blank(c: char) { c == ' ' || c == '\t' }

  // From `i` a sign or none, up to `j`.
  predicate SignAt(s: string, i: nat, j: nat) {
    i <= j <= |s| && (j == i || (j == i + 1 && (s[i] == '+' || s[i] == '-')))
  }

  // From `j` a prefix or none, up to `m`, and then digits in base `b`, up to `k`; behind a
  // prefix there may be none.
  predicate NumeralAt(s: string, j: nat, m: nat, k: nat, base: nat, b: nat) {
    && j <= m <= k <= |s| && (m < k || m == j + 2 || (m == j + 1 && CharAt(s, m) != 'x'))
    && 2 <= b <= 36 && AllDigits(s[m..k], b) && (k < |s| ==> DigitOf(s[k]) >= b)
    && if m == j + 2 then s[j] == '0' && s[j + 1] == 'x' && b == 16 && (base == 0 || base == 16)
       else if m == j + 1 then s[j] == '0' && b == 8 && base == 0
       else
         && m == j
         && (if base == 0 then b == 10 && s[j] != '0' else base == b)
         && (b == 16 ==> s[j] != '0' || CharAt(s, j + 1) != 'x')
  }

  lemma {:induction false} SkipBlanks(s: string, i: nat, j: nat)
    requires i <= j < |s| && !Blank(s[j]) && forall k :: i <= k < j ==> Blank(s[k])
    ensures Skip(s, i) == j
    decreases j - i
  {
    if i < j {
      SkipBlanks(s, i + 1, j);
    }
  }

  lemma PrefixAt(s: string, j: nat, m: nat, k: nat, base: nat, b: nat)
    requires NumeralAt(s, j, m, k, base, b) && base <= 36
    ensures Prefix(s, j, base) == (b, m) && !Blank(s[j]) && s[j] != '+' && s[j] != '-'
  {
    assert m < k ==> DigitOf(s[m..k][0]) < b && s[m..k][0] == s[m] && DigitOf('x') == 33;
  }

  lemma AccumulateEnds(s: string, i: nat, val: int, base: nat)
    requires i <= |s| && base <= 36 && (i < |s| ==> DigitOf(s[i]) >= base)
    ensures Accumulate(s, i, val, base) == Parsed(val, i)
  {
  }

  /** What strtol reads: blanks, a sign, a prefix that gives or confirms the base, and digits as
      far as they go, whatever follows. */
  lemma StrTolReads(s: string, i: nat, j: nat, m: nat, k: nat, base: nat, b: nat)
    requires SignAt(s, i, j) && (forall x :: 0 <= x < i ==> Blank(s[x])) && base <= 36 && NumeralAt(s, j, m, k, base, b)
    ensures var value := Value(s[m..k], 0, b) as int;
      StrTol(s, base) == Parsed(Wrap(if i < j && s[i] == '-' then -value else value), k)
  {
    PrefixAt(s, j, m, k, base, b);
    hide Wrap, Value, Accumulate, Prefix, Skip, DigitOf;
    AccumulateValue(s, m, k, b);
    AccumulateEnds(s, k, Wrap(Value(s[m..k], 0, b)), b);
    SkipBlanks(s, 0, i);
    WrapMinus(Value(s[m..k], 0, b));
  }

  // A numeral of printnum behind blanks.
  lemma ReadsPlain(count: int, t: string, base: nat)
    requires 2 <= base <= 16 && t != [] && AllDigits(t, base)
    ensures StrTol(Pad(' ', count) + t, base) == Parsed(Wrap(Value(t, 0, base)), |Pad(' ', count) + t|)
  {
    hide Wrap, Value, StrTol, Pad;
    var s, i := Pad(' ', count) + t, |Pad(' ', count)|;
    PadLength(' ', count);
    assert s[i..|s|] == t && s[i] == t[0] && (i + 1 < |s| ==> s[i + 1] == t[1]);
    StrTolReads(s, i, i, i, |s|, base, base);
  }

  // A numeral behind a minus sign.
  lemma ReadsMinus(t: string, base: nat)
    requires 2 <= base <= 16 && t != [] && AllDigits(t, base)
    ensures StrTol("-" + t, base) == Parsed(Wrap(-(Value(t, 0, base) as int)), |"-" + t|)
  {
    hide Wrap, Value, StrTol;
    var s := "-" + t;
    assert s[1..|s|] == t && s[1] == t[0] && (2 < |s| ==> s[2] == t[1]);
    StrTolReads(s, 0, 1, 1, |s|, base, base);
  }

  lemma WrapMinus(v: int)
    ensures Wrap(-Wrap(v)) == Wrap(-v)
  {
    var q := (v + LONG_LIMIT) / (2 * LONG_LIMIT);
    assert Wrap(v) == v - 2 * LONG_LIMIT * q;
    WrapTurns(-v, q);
  }

  // ---------------------------------------------------------------- round trips

  /** strtol reads back what printnum printed, all of it, with space or zero padding, in any
      base from 2 to 16: the number itself if and only if a long can hold it, else what its
      low 32 bits stand for. */
  lemma PrintThenParse(num: nat, base: nat, width: int, padc: char)
    requires 2 <= base <= 16 && (padc == ' ' || padc == '0')
    ensures StrTol(Padded(num, base, width, padc), base) == Parsed(Wrap(num), |Padded(num, base, width, padc)|)
    ensures Wrap(num) == num <==> num < LONG_LIMIT
  {
    hide Value, StrTol, Digits, Pad, AllDigits;
    var count, t := width - |Digits(num, base)|, Digits(num, base);
    DigitsValue(num, base);
    if padc == ' ' {
      ReadsPlain(count, t, base);
    } else {
      ZerosValue(count, t, base);
      var z := Pad('0', count) + t;
      ReadsPlain(0, z, base);
      assert Pad(' ', 0) + z == z by { PadLength(' ', 0); }
    }
  }

  // A sign followed by something that is no digit: nothing is read.
  lemma MinusThenOther(s: string)
    requires |s| >= 2 && s[0] == '-' && DigitOf(s[1]) == 36
    ensures StrTol(s, 10) == Parsed(0, 1)
  {
    assert Skip(s, 0) == 0;
  }

  /** %d is read back for every number that is not negative, and for a negative one exactly
      when it is padded with zeros or not at all: blanks come after the sign. */
  lemma SignedRoundTripIff(x: int, width: int, padc: char)
    requires -LONG_LIMIT <= x < LONG_LIMIT && (padc == ' ' || padc == '0')
    ensures StrTol(Signed(x, width, padc), 10) == Parsed(x, |Signed(x, width, padc)|)
      <==> x >= 0 || padc == '0' || width <= |Digits(-x, 10)|
  {
    hide Value, StrTol, Digits, Pad, AllDigits;
    if x >= 0 {
      PrintThenParse(x, 10, width, padc);
    } else {
      var num: nat := -x;
      var count, t := width - |Digits(num, 10)|, Digits(num, 10);
      DigitsValue(num, 10);
      PadLength(padc, count);
      if padc == '0' {
        ZerosValue(count, t, 10);
        ReadsMinus(Padded(num, 10, width, padc), 10);
      } else if count <= 0 {
        assert Padded(num, 10, width, padc) == t;
        ReadsMinus(t, 10);
      } else {
        MinusThenOther(Signed(x, width, padc));
      }
    }
  }

  /** The `-` flag makes printnum pad with dashes on the left: what it prints is read back
      exactly when there is no padding, or the number is 0 behind a single dash. */
  lemma DashPaddingIff(num: nat, width: int)
    requires num < LONG_LIMIT
    ensures StrTol(Padded(num, 10, width, '-'), 10) == Parsed(num, |Padded(num, 10, width, '-')|)
      <==> width <= |Digits(num, 10)| || (num == 0 && width == 2)
  {
    hide Value, StrTol, Digits, Pad, AllDigits;
    var count, t := width - |Digits(num, 10)|, Digits(num, 10);
    DigitsValue(num, 10);
    PadLength('-', count);
    OneDigitLong(num);
    var s := Padded(num, 10, width, '-');
    if count <= 0 {
      ReadsPlain(0, t, 10);
      assert s == t == Pad(' ', 0) + t by { PadLength(' ', 0); }
    } else if count == 1 {
      assert s == "-" + t;
      ReadsMinus(t, 10);
    } else {
      assert s[0] == '-' && s[1] == '-';
      MinusThenOther(s);
    }
  }

  lemma OneDigitLong(num: nat)
    ensures num == 0 ==> |Digits(num, 10)| == 1
  {
  }

  // ---------------------------------------------------------------- the code

  // The conversions that print a number.
  datatype Conversion = D | U | O | X | P

  function Base(c: Conversion): nat {
    match c
    case D => 10
    case U => 10
    case O => 8
    case X => 16
    case P => 16
  }

  // What one conversion prints of its argument.
  function Converted(c: Conversion, arg: int, width: int, padc: char): string
    requires c != D ==> 0 <= arg
  {
    if c == D then Signed(arg, width, padc)
    else if c == P then "0x" + Padded(arg, Base(c), width, padc)
    else Padded(arg, Base(c), width, padc)
  }

  /** The prefix that %p prints is one that strtol takes, in base 16 and where it has to find
      out the base; blanks after it are not. */
  lemma AddressRoundTripIff(arg: nat, width: int, padc: char, base: nat)
    requires (padc == ' ' || padc == '0') && (base == 0 || base == 16)
    ensures StrTol(Converted(P, arg, width, padc), base) == Parsed(Wrap(arg), |Converted(P, arg, width, padc)|)
      <==> padc == '0' || width <= |Digits(arg, 16)|
  {
    hide StrTol, Digits, Pad, Wrap;
    var count := width - |Digits(arg, 16)|;
    PadLength(padc, count);
    if padc == '0' || count <= 0 {
      DigitsValue(arg, 16);
      if count > 0 {
        ZerosValue(count, Digits(arg, 16), 16);
      } else {
        assert Padded(arg, 16, width, padc) == Digits(arg, 16);
      }
      AfterPrefix(Padded(arg, 16, width, padc), base);
    } else {
      BlankAfterPrefix(Converted(P, arg, width, padc), base);
    }
  }

  lemma AfterPrefix(t: string, base: nat)
    requires (base == 0 || base == 16) && t != [] && AllDigits(t, 16)
    ensures StrTol("0x" + t, base) == Parsed(Wrap(Value(t, 0, 16)), |"0x" + t|)
  {
    hide Wrap, Value, StrTol;
    var s := "0x" + t;
    assert s[2..|s|] == t && s[0] == '0' && s[1] == 'x';
    StrTolReads(s, 0, 0, 2, |s|, base, 16);
  }

  lemma BlankAfterPrefix(s: string, base: nat)
    requires (base == 0 || base == 16) && |s| > 2 && s[0] == '0' && s[1] == 'x' && s[2] == ' '
    ensures StrTol(s, base) == Parsed(0, 2)
  {
    assert Skip(s, 0) == 0 && Prefix(s, 0, base) == (16, 2);
  }

  // ---------------------------------------------------------------- what is left in the buffer

  // The characters up to the terminator.
  function CString(s: string): string { if s == [] || s[0] == '\0' then [] else [s[0]] + CString(s[1..]) }

  // What snprintf leaves of `out` in a buffer of `n` bytes.
  predicate Printed(buf: string, n: int, out: string) {
    var kept := if |out| < n - 1 then |out| else n - 1;
    0 <= kept < |buf| && buf[..kept + 1] == out[..kept] + ['\0']
  }

  lemma {:induction false} UpToNul(s: string, k: nat)
    requires k < |s| && s[k] == '\0' && '\0' !in s[..k]
    ensures CString(s) == s[..k]
    decreases k
  {
    if k > 0 {
      assert s[0] == s[..k][0] && s[1..][..k - 1] == s[1..k] == s[..k][1..];
      UpToNul(s[1..], k - 1);
    }
  }

  lemma NoNul(num: nat, base: nat, width: int, padc: char)
    requires 2 <= base <= 16 && padc != '\0'
    ensures '\0' !in Padded(num, base, width, padc)
  {
    hide Digits, Digit, Pad;
    DigitsAreDigits(num, base);
    PadLength(padc, width - |Digits(num, base)|);
    assert DigitOf('\0') == 36;
  }

  /** What %u, %o and %x leave in a buffer that has room is read back by strtol in base 10, 8
      and 16; one that has no room holds the leading characters. */
  lemma SnprintfThenStrtol(buf: string, n: int, c: Conversion, arg: nat, width: int, padc: char)
    requires 1 <= n && Printed(buf, n, Converted(c, arg, width, padc)) && c in {U, O, X} && (padc == ' ' || padc == '0')
    ensures var out := Converted(c, arg, width, padc);
      if |out| >= n then CString(buf) == out[..n - 1]
      else StrTol(CString(buf), if c == U then 10 else if c == O then 8 else 16) == Parsed(Wrap(arg), |out|)
  {
    hide Padded, StrTol, Wrap;
    var out := Converted(c, arg, width, padc);
    var kept := if |out| < n - 1 then |out| else n - 1;
    NoNul(arg, Base(c), width, padc);
    assert buf[kept] == buf[..kept + 1][kept];
    assert buf[..kept] == buf[..kept + 1][..kept] == out[..kept];
    UpToNul(buf, kept);
    assert out[..|out|] == out;
    PrintThenParse(arg, Base(c), width, padc);
  }

  // struct sprintbuf
  class SprintBuf {
    const chars: array<char>
    var buf: nat               // where the next character goes
    const ebuf: int            // index of the last byte, kept for the terminator
    var cnt: nat
    ghost var sent: string     // all that was printed

    constructor (chars: array<char>, n: int)
      requires 1 <= n <= chars.Length
      ensures this.chars == chars && ebuf == n - 1 && sent == [] && Valid()
    {
      this.chars, buf, ebuf, cnt, sent := chars, 0, n - 1, 0, [];
    }

    ghost predicate Valid()
      reads this, chars
    {
      && 0 <= ebuf < chars.Length && cnt == |sent|
      && buf == (if |sent| < ebuf then |sent| else ebuf) && chars[..buf] == sent[..buf]
    }

    method Sprintputch(ch: char)
      requires Valid()
      modifies this, chars
      ensures Valid() && sent == old(sent) + [ch]
    {
      cnt := cnt + 1;
      if buf < ebuf {
        chars[buf] := ch;
        buf := buf + 1;
      }
      sent := sent + [ch];
    }

    // while (--width > 0) putch(padc, putdat)
    method PutPads(width: int, padc: char)
      requires Valid()
      modifies this, chars
      ensures Valid() && sent == old(sent) + Pad(padc, width - 1)
    {
      hide Valid;
      var w := width - 1;
      while w > 0
        invariant Valid() && sent + Pad(padc, w) == old(sent) + Pad(padc, width - 1)
      {
        PadFront(padc, w);
        Sprintputch(padc);
        w := w - 1;
      }
    }

    method Printnum(num: nat, base: nat, width: int, padc: char)
      requires Valid() && 2 <= base <= 16
      modifies this, chars
      ensures Valid() && sent == old(sent) + Padded(num, base, width, padc)
      decreases num
    {
      hide Padded, Digits, Pad, Valid;
      PaddedStep(num, base, width, padc);
      DivMod(num, base);
      if num >= base {
        Printnum(num / base, base, width - 1, padc);
      } else {
        PutPads(width, padc);
      }
      Sprintputch("0123456789abcdef"[num % base]);
    }

    // One numeric conversion of vprintfmt.
    method PrintConversion(c: Conversion, arg: int, width: int, padc: char)
      requires Valid() && (c != D ==> 0 <= arg)
      modifies this, chars
      ensures Valid() && sent == old(sent) + Converted(c, arg, width, padc)
    {
      hide Valid, Padded;
      var num := arg;
      if c == D && arg < 0 {
        Sprintputch('-');
        num := -arg;
      }
      if c == P {
        Sprintputch('0');
        Sprintputch('x');
      }
      Printnum(num, Base(c), width, padc);
    }

    // vsnprintf: what follows the formatting.
    method Terminate() returns (length: nat)
      requires Valid()
      modifies chars
      ensures length == |sent|
      ensures 0 <= buf <= |sent| && buf < chars.Length && buf == (if |sent| < ebuf then |sent| else ebuf)
      ensures chars[..buf + 1] == sent[..buf] + ['\0']
    {
      chars[buf] := '\0';
      length := cnt;
    }
  }

  lemma {:induction false} PadFront(padc: char, count: int)
    requires count > 0
    ensures Pad(padc, count) == [padc] + Pad(padc, count - 1)
  {
    if count > 1 {
      PadFront(padc, count - 1);
    } else {
      assert Pad(padc, 0) == [];
    }
  }

  /** The length of what a conversion prints, and its characters cut to n - 1 and terminated,
      or -1 standing for the error when the buffer has no byte. */
  method Snprintf(chars: array<char>, n: int, c: Conversion, arg: int, width: int, padc: char) returns (length: int)
    requires n <= chars.Length && (c != D ==> 0 <= arg)
    modifies chars
    ensures n < 1 ==> length == -1
    ensures n >= 1 ==>
      var out := Converted(c, arg, width, padc);
      length == |out| && Printed(chars[..], n, out)
  {
    hide Converted, Padded, Signed, Base;
    if n < 1 {
      return -1;
    }
    var b := new SprintBuf(chars, n);
    b.PrintConversion(c, arg, width, padc);
    assert b.sent == Converted(c, arg, width, padc);
    length := b.Terminate();
  }

  lemma AccumulateStep(s: string, i: nat, val: int, base: nat)
    requires i < |s| && base <= 36
    ensures DigitOf(s[i]) < base ==>
      Accumulate(s, i, val, base) == Accumulate(s, i + 1, Wrap(val * base + DigitOf(s[i])), base)
  {
  }

  lemma SkipCases(s: string, i: nat)
    requires i <= |s|
    ensures if Blank(CharAt(s, i)) then i < |s| && Skip(s, i) == Skip(s, i + 1) else Skip(s, i) == i
    ensures CharAt(s, i) == '+' || CharAt(s, i) == '-' ==> i < |s|
  {
  }

  lemma PrefixCases(s: string, i: nat, base: nat)
    requires i <= |s| && base <= 36
    ensures Prefix(s, i, base) ==
      if (base == 0 || base == 16) && CharAt(s, i) == '0' && CharAt(s, i + 1) == 'x' then (16, i + 2)
      else (if base == 0 && CharAt(s, i) == '0' then (8, i + 1) else (if base == 0 then 10 else base, i))
  {
  }

  // strtol on the characters up to the terminator; the end pointer is an index.
  method Strtol(s: string, base: nat) returns (value: int, end: nat)
    requires base <= 36
    ensures Parsed(value, end) == StrTol(s, base)
  {
    hide Wrap, DigitOf, Accumulate, Skip, Prefix, CharAt;
    var i, neg, b, val := 0, false, base, 0;
    while CharAt(s, i) == ' ' || CharAt(s, i) == '\t'
      invariant i <= |s| && Skip(s, i) == Skip(s, 0)
      decreases |s| - i
    {
      SkipCases(s, i);
      i := i + 1;
    }
    SkipCases(s, i);
    if CharAt(s, i) == '+' {
      i := i + 1;
    } else if CharAt(s, i) == '-' {
      i := i + 1;
      neg := true;
    }
    ghost var j := i;
    if (b == 0 || b == 16) && CharAt(s, i) == '0' && CharAt(s, i + 1) == 'x' {
      i := i + 2;
      b := 16;
    } else if b == 0 && CharAt(s, i) == '0' {
      i := i + 1;
      b := 8;
    } else if b == 0 {
      b := 10;
    }
    PrefixCases(s, j, base);
    ghost var start := i;
    while i < |s|
      invariant start <= i <= |s| && Accumulate(s, i, val, b) == Accumulate(s, start, 0, b)
    {
      AccumulateStep(s, i, val, b);
      var dig := DigitOf(s[i]);
      if dig >= b {
        break;
      }
      val := Wrap(val * b + dig);
      i := i + 1;
    }
    AccumulateEnds(s, i, val, b);
    end := i;
    value := if neg then Wrap(-val) else val;
  }
}
