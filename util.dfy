/**
 * The C library's character classes and string conversions, as the C
 * locale defines them. C strings are sequences of characters without the
 * terminating NUL; `CString` reads one out of a NUL-terminated buffer.
 */
module CLib {
  import opened Wrappers
  import Machine

  /** `isdigit`. */
  predicate IsDigit(c: char) { '0' <= c <= '9' }

  /** `isspace`: blank, and tab through carriage return. */
  predicate IsSpace(c: char) { c == ' ' || '\t' <= c <= '\r' }

  const NUL: char := 0 as char

  /** The first position at or after `from` that holds `c`, as `strchr`/`strstr` find it. */
  function Find(s: seq<char>, from: nat, c: char): (r: Option<nat>)
    requires from <= |s|
    ensures r.Some? ==> from <= r.value < |s| && s[r.value] == c
    ensures r.Some? ==> forall k :: from <= k < r.value ==> s[k] != c
    ensures r.None? ==> forall k :: from <= k < |s| ==> s[k] != c
    decreases |s| - from
  {
    if from == |s| then None
    else if s[from] == c then Some(from)
    else Find(s, from + 1, c)
  }

  /** A buffer holding a C string from `from` on: a NUL comes somewhere after it. */
  predicate Terminated(s: seq<char>, from: nat)
  {
    from <= |s| && Find(s, from, NUL).Some?
  }

  /** The C string that starts at `from`: everything up to the next NUL. */
  function CString(s: seq<char>, from: nat): (r: seq<char>)
    requires Terminated(s, from)
    ensures from + |r| < |s| && r == s[from..from + |r|] && s[from + |r|] == NUL
    ensures forall k :: 0 <= k < |r| ==> r[k] != NUL
  {
    s[from..Find(s, from, NUL).value]
  }

  /** `tolower` on ASCII letters. */
  function ToLower(c: char): char
  {
    if 'A' <= c <= 'Z' then (c as int + 32) as char else c
  }

  function Lowered(s: seq<char>): (r: seq<char>)
    ensures |r| == |s| && forall k :: 0 <= k < |s| ==> r[k] == ToLower(s[k])
  {
    seq(|s|, k requires 0 <= k < |s| => ToLower(s[k]))
  }

  /** `strcasestr(hay, needle) != NULL`: `needle` occurs in `hay`, ignoring case. */
  predicate ContainsIgnoringCase(hay: seq<char>, needle: seq<char>)
  {
    exists k :: 0 <= k <= |hay| - |needle| && MatchesAt(hay, needle, k)
  }

  predicate MatchesAt(hay: seq<char>, needle: seq<char>, k: int)
  {
    0 <= k <= |hay| - |needle| && Lowered(hay[k..k + |needle|]) == Lowered(needle)
  }

  /** The leading run of decimal digits. */
  function LeadingDigits(s: seq<char>): (r: seq<char>)
    ensures |r| <= |s| && r == s[..|r|]
    ensures forall k :: 0 <= k < |r| ==> IsDigit(r[k])
    ensures |r| < |s| ==> !IsDigit(s[|r|])
  {
    if s == [] || !IsDigit(s[0]) then [] else [s[0]] + LeadingDigits(s[1..])
  }

  /** The value of a string of decimal digits. */
  function DecimalValue(ds: seq<char>): nat
    requires forall k :: 0 <= k < |ds| ==> IsDigit(ds[k])
  {
    if ds == [] then 0
    else
      assert IsDigit(ds[|ds| - 1]);
      10 * DecimalValue(ds[..|ds| - 1]) + (ds[|ds| - 1] as int - '0' as int)
  }

  function SkipSpaces(s: seq<char>): (r: seq<char>)
    ensures |r| <= |s| && r == s[|s| - |r|..]
    ensures r != [] ==> !IsSpace(r[0])
  {
    if s != [] && IsSpace(s[0]) then SkipSpaces(s[1..]) else s
  }

  const LongMax: nat := 0x7FFF_FFFF_FFFF_FFFF

  /**
   * `atoi`, as glibc computes it: `(int) strtol(s, NULL, 10)`. Leading
   * white space is skipped, one sign is accepted, and the digits that follow
   * are read; `strtol` saturates at the 64-bit `long` range and the cast
   * keeps the low 32 bits.
   */
  function Atoi(s: seq<char>): (r: int)
    ensures -0x8000_0000 <= r < 0x8000_0000
  {
    var t := SkipSpaces(s);
    var neg := t != [] && t[0] == '-';
    var u := if t != [] && (t[0] == '-' || t[0] == '+') then t[1..] else t;
    var v := DecimalValue(LeadingDigits(u));
    Machine.ToInt32(if neg then -(if v > LongMax + 1 then LongMax + 1 else v)
                    else if v > LongMax then LongMax else v)
  }

  // ------------------------------------------------ numerals (`%d`, `%x`)

  /** A digit in bases up to 16, lower case as `%x` writes it. */
  function DigitChar(d: nat): char
    requires d < 16
  {
    if d < 10 then ('0' as int + d) as char else ('a' as int + d - 10) as char
  }

  predicate IsHexDigit(c: char) { IsDigit(c) || 'a' <= c <= 'f' }

  function DigitValue(c: char): (r: nat)
    requires IsHexDigit(c)
    ensures r < 16 && DigitChar(r) == c
  {
    if IsDigit(c) then c as int - '0' as int else c as int - 'a' as int + 10
  }

  /** `n` written in `base` without leading zeros, as `printf` writes it; 0 is "0". */
  function Numeral(n: nat, base: nat): (r: seq<char>)
    requires 2 <= base <= 16
    ensures r != [] && forall k :: 0 <= k < |r| ==> IsHexDigit(r[k])
    decreases n
  {
    if n < base then [DigitChar(n)]
    else
      DivideByBase(n, base);
      Numeral(n / base, base) + [DigitChar(n % base)]
  }

  lemma DivideByBase(n: nat, base: nat)
    requires 2 <= base <= n
    ensures n / base < n && n % base < base && n == base * (n / base) + n % base
  {
  }

  /** The value of a string of digits in `base`. */
  function NumeralValue(s: seq<char>, base: nat): nat
    requires forall k :: 0 <= k < |s| ==> IsHexDigit(s[k])
  {
    if s == [] then 0
    else
      assert IsHexDigit(s[|s| - 1]);
      base * NumeralValue(s[..|s| - 1], base) + DigitValue(s[|s| - 1])
  }

  /** Reading a numeral back gives the number written. */
  lemma {:induction false} NumeralRoundTrip(n: nat, base: nat)
    requires 2 <= base <= 16
    ensures NumeralValue(Numeral(n, base), base) == n
    decreases n
  {
    var r := Numeral(n, base);
    if n >= base {
      DivideByBase(n, base);
      NumeralRoundTrip(n / base, base);
      assert r[..|r| - 1] == Numeral(n / base, base);
    }
  }

  function Power(b: nat, k: nat): nat
  {
    if k == 0 then 1 else b * Power(b, k - 1)
  }

  /** A number below `base^k` takes at most `k` digits. */
  lemma {:induction false} NumeralLength(n: nat, base: nat, k: nat)
    requires 2 <= base <= 16 && 1 <= k && n < Power(base, k)
    ensures |Numeral(n, base)| <= k
    decreases k
  {
    if k == 1 {
      assert Power(base, 1) == base;
    } else if n >= base {
      DivideByBase(n, base);
      assert n / base < Power(base, k - 1) by {
        assert Power(base, k) == base * Power(base, k - 1);
        if n / base >= Power(base, k - 1) {
          Machine.LemmaMulLe(Power(base, k - 1), n / base, base);
        }
      }
      NumeralLength(n / base, base, k - 1);
    }
  }

  /** Decimal numerals are digit strings whose `DecimalValue` is the number. */
  lemma {:induction false} DecimalNumeral(n: nat)
    ensures forall k :: 0 <= k < |Numeral(n, 10)| ==> IsDigit(Numeral(n, 10)[k])
    ensures DecimalValue(Numeral(n, 10)) == n
    decreases n
  {
    var r := Numeral(n, 10);
    if n >= 10 {
      DecimalNumeral(n / 10);
      assert r[..|r| - 1] == Numeral(n / 10, 10);
    }
  }

  /** The digits of a numeral followed by a non-digit are its leading digits. */
  lemma {:induction false} LeadingDigitsOf(ds: seq<char>, rest: seq<char>)
    requires forall k :: 0 <= k < |ds| ==> IsDigit(ds[k])
    requires rest == [] || !IsDigit(rest[0])
    ensures LeadingDigits(ds + rest) == ds
  {
    if ds != [] {
      assert (ds + rest)[1..] == ds[1..] + rest;
      LeadingDigitsOf(ds[1..], rest);
      assert [ds[0]] + ds[1..] == ds;
    } else {
      assert ds + rest == rest;
    }
  }

  /** `atoi` reads back a decimal numeral that fits in an `int`, whatever follows it that is not a digit. */
  lemma AtoiNumeral(n: nat, rest: seq<char>)
    requires n < 0x8000_0000 && (rest == [] || !IsDigit(rest[0]))
    ensures Atoi(Numeral(n, 10) + rest) == n
  {
    var s := Numeral(n, 10) + rest;
    DecimalNumeral(n);
    assert SkipSpaces(s) == s by {
      assert s[0] == Numeral(n, 10)[0];
    }
    assert s[0] == Numeral(n, 10)[0];
    LeadingDigitsOf(Numeral(n, 10), rest);
  }
}

/** util.cpp: the string predicates used in argument parsing. */
module Util {
  import opened CLib

  /**
   * `is_number`: the loop over the string that returns false at the first
   * character that is neither a digit nor white space.
   */
  function IsNumber(s: seq<char>): bool
  {
    if s == [] then true
    else if !IsDigit(s[0]) && !IsSpace(s[0]) then false
    else IsNumber(s[1..])
  }

  /** `is_number` holds exactly when every character is a digit or white space. */
  lemma {:induction false} IsNumberMeansDigitsAndSpaces(s: seq<char>)
    ensures IsNumber(s) <==> forall i :: 0 <= i < |s| ==> IsDigit(s[i]) || IsSpace(s[i])
  {
    if s != [] {
      IsNumberMeansDigitsAndSpaces(s[1..]);
      assert forall i :: 1 <= i < |s| ==> s[i] == s[1..][i - 1];
    }
  }

  /** The empty string is a number; a sign is not a digit, so `-1` and `+1` are not. */
  lemma IsNumberEdgeCases()
    ensures IsNumber("") && IsNumber(" 12 ")
    ensures !IsNumber("-1") && !IsNumber("+1") && !IsNumber("1.5")
  {
    assert !IsNumber("1.5") by { assert IsNumber("1.5") == IsNumber(".5"); }
  }

  /**
   * `matchBeginnings`: the loop over the first `min(strlen(x), strlen(y))`
   * characters that returns false at the first difference.
   */
  function MatchBeginnings(x: seq<char>, y: seq<char>): bool
  {
    if x == [] || y == [] then true
    else if x[0] != y[0] then false
    else MatchBeginnings(x[1..], y[1..])
  }

  /** `matchBeginnings(x, y)` holds exactly when one string is a prefix of the other. */
  lemma {:induction false} MatchBeginningsMeansPrefix(x: seq<char>, y: seq<char>)
    ensures MatchBeginnings(x, y) <==> x <= y || y <= x
  {
    if x != [] && y != [] {
      MatchBeginningsMeansPrefix(x[1..], y[1..]);
      if x[0] == y[0] {
        assert x <= y <==> x[1..] <= y[1..];
        assert y <= x <==> y[1..] <= x[1..];
      }
    }
  }

  /** It is symmetric and reflexive, and the empty string matches everything. */
  lemma MatchBeginningsLaws(x: seq<char>, y: seq<char>)
    ensures MatchBeginnings(x, y) == MatchBeginnings(y, x)
    ensures MatchBeginnings(x, x)
    ensures MatchBeginnings([], y) && MatchBeginnings(x, [])
  {
    MatchBeginningsMeansPrefix(x, y);
    MatchBeginningsMeansPrefix(y, x);
    MatchBeginningsMeansPrefix(x, x);
  }
}
