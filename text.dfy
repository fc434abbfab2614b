/**
 * The pieces of Python's string handling the tools rely on: `str(n)`,
 * `hex(n)` / `f"{n:#x}"`, `int(s)` / `int(s, 16)`, `str.split` and
 * `str.strip`.  Integers are non-negative except where a sign is parsed.
 */
module Text {

  datatype Option<T> = None | Some(value: T)

  const HexChars: string := "0123456789abcdef"

  /** The value of a digit character in bases up to 16, or -1. */
  function DigitValue(c: char): int
  {
    if '0' <= c <= '9' then c as int - '0' as int
    else if 'a' <= c <= 'f' then c as int - 'a' as int + 10
    else if 'A' <= c <= 'F' then c as int - 'A' as int + 10
    else -1
  }

  predicate IsDigits(s: string, base: nat)
  {
    forall i :: 0 <= i < |s| ==> 0 <= DigitValue(s[i]) < base
  }

  /** The number written by the digit string `s` in `base`. */
  function ValueOf(s: string, base: nat): nat
    requires IsDigits(s, base)
  {
    if |s| == 0 then 0
    else ValueOf(s[..|s| - 1], base) * base + DigitValue(s[|s| - 1])
  }

  /** The shortest digit string of `n` in `base`, lower-case letters. */
  function Digits(n: nat, base: nat): (s: string)
    requires 2 <= base <= 16
    ensures |s| >= 1
    decreases n
  {
    if n < base then [HexChars[n]]
    else
      DivSmaller(n, base);
      Digits(n / base, base) + [HexChars[n % base]]
  }

  lemma DivSmaller(n: nat, base: nat)
    requires 2 <= base <= n
    ensures n / base < n && n % base < base
  {
  }

  /** `str(n)` */
  function Dec(n: nat): string
  {
    Digits(n, 10)
  }

  /** `str(n)` of a value that may be negative */
  function IntDec(n: int): string
  {
    if n < 0 then "-" + Dec(-n) else Dec(n)
  }

  /** `hex(n)`, the same as `f"{n:#x}"` */
  function Hex(n: nat): string
  {
    "0x" + Digits(n, 16)
  }

  lemma HexCharValue(d: nat)
    requires d < 16
    ensures DigitValue(HexChars[d]) == d
  {
  }

  /** Printing a number and reading it back gives the number. */
  lemma {:induction false} DigitsValue(n: nat, base: nat)
    requires 2 <= base <= 16
    ensures IsDigits(Digits(n, base), base)
    ensures ValueOf(Digits(n, base), base) == n
    decreases n
  {
    if n < base {
      HexCharValue(n);
    } else {
      DivSmaller(n, base);
      var s := Digits(n / base, base);
      DigitsValue(n / base, base);
      HexCharValue(n % base);
      var t := s + [HexChars[n % base]];
      assert t[..|t| - 1] == s;
      assert IsDigits(t, base) by {
        forall i | 0 <= i < |t|
          ensures 0 <= DigitValue(t[i]) < base
        {
          if i < |s| {
            assert t[i] == s[i];
          }
        }
      }
      assert ValueOf(t, base) == ValueOf(s, base) * base + DigitValue(t[|t| - 1]);
      DivModSplit(n, base);
    }
  }

  lemma DivModSplit(n: nat, base: nat)
    requires base > 0
    ensures (n / base) * base + n % base == n
  {
  }

  /** `int(s, base)` of a bare digit string. */
  function ParseDigits(s: string, base: nat): Option<nat>
  {
    if |s| > 0 && IsDigits(s, base) then Some(ValueOf(s, base)) else None
  }

  /** `int(s, 16)`: an optional `0x`/`0X` prefix followed by hex digits. */
  function ParseHex(s: string): Option<nat>
  {
    if |s| >= 2 && s[0] == '0' && (s[1] == 'x' || s[1] == 'X') then ParseDigits(s[2..], 16)
    else ParseDigits(s, 16)
  }

  /** `int(s)`: an optional sign followed by decimal digits. */
  function ParseInt(s: string): Option<int>
  {
    if |s| >= 1 && s[0] == '-' then
      match ParseDigits(s[1..], 10)
      case Some(v) => Some(-(v as int))
      case None => None
    else if |s| >= 1 && s[0] == '+' then
      match ParseDigits(s[1..], 10)
      case Some(v) => Some(v as int)
      case None => None
    else
      match ParseDigits(s, 10)
      case Some(v) => Some(v as int)
      case None => None
  }

  lemma ParseDec(n: nat)
    ensures ParseInt(Dec(n)) == Some(n as int)
  {
    DigitsValue(n, 10);
  }

  lemma ParseIntDec(n: int)
    ensures ParseInt(IntDec(n)) == Some(n)
  {
    if n < 0 {
      var s := IntDec(n);
      assert s[0] == '-' && s[1..] == Dec(-n);
      DigitsValue(-n, 10);
      assert ParseDigits(s[1..], 10) == Some(-n);
    } else {
      ParseDec(n);
    }
  }

  lemma ParseHexOfHex(n: nat)
    ensures ParseHex(Hex(n)) == Some(n)
    ensures ParseHex(Digits(n, 16)) == Some(n)
  {
    DigitsValue(n, 16);
    assert Hex(n)[2..] == Digits(n, 16);
    var s := Digits(n, 16);
    if |s| >= 2 && s[0] == '0' {
      // a leading zero only occurs in the one-digit string "0"
      LeadingDigit(n, 16);
    }
  }

  /** The digit string has no leading zero unless it is "0". */
  lemma {:induction false} LeadingDigit(n: nat, base: nat)
    requires 2 <= base <= 16
    ensures Digits(n, base)[0] == '0' ==> n == 0
    ensures n == 0 ==> Digits(n, base) == "0"
    decreases n
  {
    if n >= base {
      DivSmaller(n, base);
      LeadingDigit(n / base, base);
    }
  }

  // -----------------------------------------------------------------------
  // str.split(sep) with a one-character separator, and its inverse

  /** `s.split(sep)` */
  function Split(s: string, sep: char): (parts: seq<string>)
    ensures |parts| >= 1
  {
    if |s| == 0 then [""]
    else if s[0] == sep then [""] + Split(s[1..], sep)
    else
      var rest := Split(s[1..], sep);
      [[s[0]] + rest[0]] + rest[1..]
  }

  /** `sep.join(parts)` */
  function Join(sep: char, parts: seq<string>): string
  {
    if |parts| == 0 then ""
    else if |parts| == 1 then parts[0]
    else parts[0] + [sep] + Join(sep, parts[1..])
  }

  /** No part contains the separator, and joining the parts gives back the string. */
  lemma {:induction false} SplitJoin(s: string, sep: char)
    ensures Join(sep, Split(s, sep)) == s
    ensures forall p :: p in Split(s, sep) ==> sep !in p
  {
    if |s| > 0 {
      SplitJoin(s[1..], sep);
      var rest := Split(s[1..], sep);
      if s[0] == sep {
        assert Split(s, sep) == [""] + rest;
        assert Join(sep, [""] + rest) == [sep] + Join(sep, rest);
      } else {
        assert s == [s[0]] + s[1..];
        if |rest| == 1 {
          assert Join(sep, Split(s, sep)) == [s[0]] + rest[0];
        } else {
          assert Join(sep, rest) == rest[0] + [sep] + Join(sep, rest[1..]);
          assert ([[s[0]] + rest[0]] + rest[1..])[1..] == rest[1..];
        }
        forall p | p in Split(s, sep)
          ensures sep !in p
        {
          if p != [s[0]] + rest[0] {
            assert p in rest[1..];
          } else {
            assert rest[0] in rest;
          }
        }
      }
    }
  }

  /** Splitting a string free of the separator gives the string alone. */
  lemma {:induction false} SplitNoSep(s: string, sep: char)
    requires sep !in s
    ensures Split(s, sep) == [s]
  {
    if |s| > 0 {
      SplitNoSep(s[1..], sep);
      assert s == [s[0]] + s[1..];
    }
  }

  /** Splitting `a + [sep] + b` where `a` is free of the separator. */
  lemma {:induction false} SplitAt(a: string, b: string, sep: char)
    requires sep !in a
    ensures Split(a + [sep] + b, sep) == [a] + Split(b, sep)
  {
    if |a| == 0 {
      assert a + [sep] + b == [sep] + b;
      assert ([sep] + b)[1..] == b;
    } else {
      SplitAt(a[1..], b, sep);
      assert (a + [sep] + b)[1..] == a[1..] + [sep] + b;
      assert [a[0]] + a[1..] == a;
    }
  }

  /** Splitting two separator-free strings joined by the separator. */
  lemma SplitTwo(a: string, b: string, sep: char)
    requires sep !in a && sep !in b
    ensures Split(a + [sep] + b, sep) == [a, b]
  {
    SplitAt(a, b, sep);
    SplitNoSep(b, sep);
  }

  /** Splitting three separator-free strings joined by the separator. */
  lemma SplitThree(a: string, b: string, c: string, sep: char)
    requires sep !in a && sep !in b && sep !in c
    ensures Split(a + [sep] + b + [sep] + c, sep) == [a, b, c]
  {
    assert a + [sep] + b + [sep] + c == a + [sep] + (b + [sep] + c);
    SplitAt(a, b + [sep] + c, sep);
    SplitTwo(b, c, sep);
  }

  // -----------------------------------------------------------------------
  // str.strip()

  predicate IsSpace(c: char)
  {
    c == ' ' || c == '\t' || c == '\n' || c == '\r' || c == '\U{b}' || c == '\U{c}'
  }

  function LStrip(s: string): string
  {
    if |s| > 0 && IsSpace(s[0]) then LStrip(s[1..]) else s
  }

  /** `s.lstrip()` is a suffix of `s` that does not start with a blank, and
      everything before it is blank. */
  lemma {:induction false} LStripShape(s: string)
    ensures var r := LStrip(s); |r| <= |s| && r == s[|s| - |r|..]
    ensures var r := LStrip(s); |r| > 0 ==> !IsSpace(r[0])
    ensures forall i :: 0 <= i < |s| - |LStrip(s)| ==> IsSpace(s[i])
  {
    if |s| > 0 && IsSpace(s[0]) {
      LStripShape(s[1..]);
    }
  }

  function RStrip(s: string): string
  {
    if |s| > 0 && IsSpace(s[|s| - 1]) then RStrip(s[..|s| - 1]) else s
  }

  /** `s.rstrip()` is a prefix of `s` that does not end with a blank, and
      everything after it is blank. */
  lemma {:induction false} RStripShape(s: string)
    ensures var r := RStrip(s); |r| <= |s| && r == s[..|r|]
    ensures var r := RStrip(s); |r| > 0 ==> !IsSpace(r[|r| - 1])
    ensures forall i :: |RStrip(s)| <= i < |s| ==> IsSpace(s[i])
  {
    if |s| > 0 && IsSpace(s[|s| - 1]) {
      RStripShape(s[..|s| - 1]);
    }
  }

  /** `s.strip()` */
  function Strip(s: string): string
  {
    RStrip(LStrip(s))
  }

  /** `s.strip()` neither starts nor ends with a blank ... */
  lemma StripEnds(s: string)
    ensures var r := Strip(s); |r| > 0 ==> !IsSpace(r[0]) && !IsSpace(r[|r| - 1])
  {
    var l := LStrip(s);
    var r := RStrip(l);
    LStripShape(s);
    RStripShape(l);
    if |r| > 0 {
      assert r[0] == l[0];
    }
  }

  /** ... and is the slice `s[k..k + |r|]` between the leading and trailing blanks. */
  lemma StripSlice(s: string)
    ensures |LStrip(s)| <= |s|
    ensures var r := Strip(s); var k := |s| - |LStrip(s)|;
      k + |r| <= |s| && r == s[k..k + |r|]
  {
    var l := LStrip(s);
    var r := RStrip(l);
    var k := |s| - |l|;
    LStripShape(s);
    RStripShape(l);
    calc {
      r;
      l[..|r|];
      s[k..][..|r|];
      s[k..k + |r|];
    }
  }
}
