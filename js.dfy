/**
 * The few pieces of the JavaScript runtime that the bot's logic leans on,
 * stated over `string` (= `seq<char>`): `parseInt`, `trim`, `includes`,
 * the `/\D/g` digit filter, `split` on one character, ASCII `toLowerCase`
 * and the falsy-to-zero idiom `x || 0`.
 */
module Js {

  datatype Option<+T> = None | Some(value: T)

  /** A JavaScript number produced by `parseInt`: either NaN or an integer. */
  datatype Num = NaN | Int(i: int)

  /** `n || 0`: NaN (and 0) are falsy, so the result is the integer or 0. */
  function OrZero(n: Num): (r: int)
    ensures n.Int? ==> r == n.i
    ensures n.NaN? ==> r == 0
  {
    match n
    case NaN => 0
    case Int(i) => i
  }

  // ---------------------------------------------------------------------
  // Characters

  predicate IsDigit(c: char) { '0' <= c <= '9' }

  /** The characters `trim()` removes and the regex class `\s` matches
      (the ASCII ones, no-break space and the byte-order mark). */
  predicate IsSpace(c: char)
  {
    c == ' ' || c == '\t' || c == '\n' || c == '\r' || c == '\U{000B}' ||
    c == '\U{000C}' || c == '\U{00A0}' || c == '\U{FEFF}'
  }

  predicate AllDigits(s: string) { forall i :: 0 <= i < |s| ==> IsDigit(s[i]) }

  function DigitValue(c: char): nat
    requires IsDigit(c)
  {
    (c as int - '0' as int) as nat
  }

  function DigitChar(d: nat): (c: char)
    requires d < 10
    ensures IsDigit(c) && DigitValue(c) == d
  {
    ('0' as int + d) as char
  }

  // ---------------------------------------------------------------------
  // `s.replace(/\D/g, "")`

  /** The digit characters of `s`, in order. */
  function Digits(s: string): string
  {
    if s == [] then []
    else (if IsDigit(s[0]) then [s[0]] else []) + Digits(s[1..])
  }

  lemma {:induction false} DigitsAreDigits(s: string)
    ensures AllDigits(Digits(s))
    ensures |Digits(s)| <= |s|
  {
    if s != [] {
      DigitsAreDigits(s[1..]);
      var head := if IsDigit(s[0]) then [s[0]] else [];
      assert Digits(s) == head + Digits(s[1..]);
      forall i | 0 <= i < |Digits(s)| ensures IsDigit(Digits(s)[i]) {
        if i >= |head| {
          assert Digits(s)[i] == Digits(s[1..])[i - |head|];
        }
      }
    }
  }

  /** Filtering digits out of a string made only of digits changes nothing. */
  lemma {:induction false} DigitsOfDigits(s: string)
    requires AllDigits(s)
    ensures Digits(s) == s
  {
    if s != [] {
      assert AllDigits(s[1..]) by {
        forall i | 0 <= i < |s[1..]| ensures IsDigit(s[1..][i]) {
          assert s[1..][i] == s[i + 1];
        }
      }
      DigitsOfDigits(s[1..]);
      assert Digits(s) == [s[0]] + s[1..];
    }
  }

  // ---------------------------------------------------------------------
  // `trim()`, `toLowerCase()`

  function TrimStart(s: string): (r: string)
    ensures |r| <= |s|
    ensures r == s[|s| - |r|..]
    ensures r != [] ==> !IsSpace(r[0])
    decreases |s|
  {
    if s != [] && IsSpace(s[0]) then TrimStart(s[1..]) else s
  }

  function TrimEnd(s: string): (r: string)
    ensures |r| <= |s|
    ensures r == s[..|r|]
    ensures r != [] ==> !IsSpace(r[|r| - 1])
    decreases |s|
  {
    if s != [] && IsSpace(s[|s| - 1]) then TrimEnd(s[..|s| - 1]) else s
  }

  /** `s.trim()`: no white space at either end of the result. */
  function Trim(s: string): (r: string)
    ensures |r| <= |s|
    ensures r != [] ==> !IsSpace(r[0]) && !IsSpace(r[|r| - 1])
  {
    TrimEnd(TrimStart(s))
  }

  function LowerChar(c: char): char
  {
    if 'A' <= c <= 'Z' then (c as int + 32) as char else c
  }

  /** `s.toLowerCase()` on ASCII letters. */
  function ToLower(s: string): (r: string)
    ensures |r| == |s|
    ensures forall i :: 0 <= i < |s| ==> r[i] == LowerChar(s[i])
  {
    seq(|s|, i requires 0 <= i < |s| => LowerChar(s[i]))
  }

  // ---------------------------------------------------------------------
  // `s.includes(m)` and the number of matches of a literal global regex

  /** `s.includes(m)`. */
  predicate Includes(s: string, m: string)
    decreases |s|
  {
    |m| <= |s| && (s[..|m|] == m || Includes(s[1..], m))
  }

  /** `(s.match(/m/g) || []).length`: non-overlapping matches of `m`,
      scanning left to right. */
  function CountMatches(s: string, m: string): nat
    requires m != []
    decreases |s|
  {
    if |s| < |m| then 0
    else if s[..|m|] == m then 1 + CountMatches(s[|m|..], m)
    else CountMatches(s[1..], m)
  }

  /** A string with a match of `m` includes `m`. */
  lemma {:induction false} CountedImpliesIncludes(s: string, m: string)
    requires m != []
    requires CountMatches(s, m) > 0
    ensures Includes(s, m)
    decreases |s|
  {
    if s[..|m|] != m {
      CountedImpliesIncludes(s[1..], m);
    }
  }

  // ---------------------------------------------------------------------
  // `s.split(c)` and `parts.join(c)` for a one-character separator

  function Split(s: string, sep: char): (parts: seq<string>)
    ensures |parts| >= 1
  {
    if s == [] then [[]]
    else if s[0] == sep then [[]] + Split(s[1..], sep)
    else
      var rest := Split(s[1..], sep);
      [[s[0]] + rest[0]] + rest[1..]
  }

  function Join(parts: seq<string>, sep: char): string
  {
    if parts == [] then []
    else if |parts| == 1 then parts[0]
    else parts[0] + [sep] + Join(parts[1..], sep)
  }

  /** Splitting and joining again gives back the original text, and no
      piece contains the separator. */
  lemma {:induction false} SplitJoin(s: string, sep: char)
    ensures Join(Split(s, sep), sep) == s
    ensures forall k :: 0 <= k < |Split(s, sep)| ==> sep !in Split(s, sep)[k]
  {
    if s != [] {
      var rest := Split(s[1..], sep);
      SplitJoin(s[1..], sep);
      if s[0] == sep {
        assert Split(s, sep) == [[]] + rest;
        assert Join(Split(s, sep), sep) == [] + [sep] + Join(rest, sep);
        forall k | 0 <= k < |Split(s, sep)| ensures sep !in Split(s, sep)[k] {
          if k > 0 { assert Split(s, sep)[k] == rest[k - 1]; }
        }
      } else {
        var parts := [[s[0]] + rest[0]] + rest[1..];
        assert Split(s, sep) == parts;
        if |rest| == 1 {
          assert Join(parts, sep) == [s[0]] + rest[0];
          assert Join(rest, sep) == rest[0];
        } else {
          assert Join(rest, sep) == rest[0] + [sep] + Join(rest[1..], sep);
          assert parts[1..] == rest[1..];
          assert Join(parts, sep) == ([s[0]] + rest[0]) + [sep] + Join(rest[1..], sep);
        }
        forall k | 0 <= k < |parts| ensures sep !in parts[k] {
          if k == 0 {
            assert sep !in rest[0];
          } else {
            assert parts[k] == rest[k];
          }
        }
      }
    }
  }

  // ---------------------------------------------------------------------
  // `parseInt(s, 10)`

  /** The longest prefix of `s` made of digits. */
  function DigitPrefix(s: string): (d: string)
    ensures |d| <= |s| && d == s[..|d|] && AllDigits(d)
    ensures |d| < |s| ==> !IsDigit(s[|d|])
  {
    if s != [] && IsDigit(s[0]) then [s[0]] + DigitPrefix(s[1..]) else []
  }

  /** The value of a decimal digit string (most significant digit first). */
  function DigitsValue(d: string): nat
    requires AllDigits(d)
  {
    if d == [] then 0 else 10 * DigitsValue(d[..|d| - 1]) + DigitValue(d[|d| - 1])
  }

  /** `parseInt(s, 10)`: skip leading white space, read an optional sign and
      the longest run of digits; NaN when there is no digit. */
  function ParseInt(s: string): Num
  {
    var t := TrimStart(s);
    if t != [] && (t[0] == '-' || t[0] == '+') then
      var d := DigitPrefix(t[1..]);
      if d == [] then NaN
      else if t[0] == '-' then Int(0 - DigitsValue(d))
      else Int(DigitsValue(d))
    else
      var d := DigitPrefix(t);
      if d == [] then NaN else Int(DigitsValue(d))
  }

  /** The canonical decimal text of a natural number, as `String(n)` writes it. */
  function DecimalString(n: nat): (s: string)
    ensures s != [] && AllDigits(s)
  {
    if n < 10 then [DigitChar(n)] else DecimalString(n / 10) + [DigitChar(n % 10)]
  }

  lemma {:induction false} DecimalStringValue(n: nat)
    ensures DigitsValue(DecimalString(n)) == n
  {
    if n >= 10 {
      DecimalStringValue(n / 10);
      var s := DecimalString(n);
      assert s[..|s| - 1] == DecimalString(n / 10);
    }
  }

  lemma {:induction false} DigitPrefixOfDigits(s: string)
    requires AllDigits(s)
    ensures DigitPrefix(s) == s
  {
    if s != [] {
      assert AllDigits(s[1..]) by {
        forall i | 0 <= i < |s[1..]| ensures IsDigit(s[1..][i]) {
          assert s[1..][i] == s[i + 1];
        }
      }
      DigitPrefixOfDigits(s[1..]);
      assert [s[0]] + s[1..] == s;
    }
  }

  // ---------------------------------------------------------------------
  // `parseInt(s)` without a radix: as above, except that digits marked by a
  // leading "0x" or "0X" (after the sign) are read in base 16

  predicate IsHexDigit(c: char) { IsDigit(c) || 'a' <= c <= 'f' || 'A' <= c <= 'F' }

  predicate AllHexDigits(s: string) { forall i :: 0 <= i < |s| ==> IsHexDigit(s[i]) }

  function HexValue(c: char): (v: nat)
    requires IsHexDigit(c)
    ensures v < 16
  {
    if IsDigit(c) then DigitValue(c)
    else if 'a' <= c <= 'f' then (c as int - 'a' as int + 10) as nat
    else (c as int - 'A' as int + 10) as nat
  }

  /** The longest prefix of `s` made of hexadecimal digits. */
  function HexPrefix(s: string): (d: string)
    ensures |d| <= |s| && d == s[..|d|] && AllHexDigits(d)
    ensures |d| < |s| ==> !IsHexDigit(s[|d|])
  {
    if s != [] && IsHexDigit(s[0]) then [s[0]] + HexPrefix(s[1..]) else []
  }

  function HexDigitsValue(d: string): nat
    requires AllHexDigits(d)
  {
    if d == [] then 0 else 16 * HexDigitsValue(d[..|d| - 1]) + HexValue(d[|d| - 1])
  }

  /** The text after leading white space and an optional sign. */
  function Unsigned(s: string): (u: string)
    ensures |u| <= |s|
  {
    var t := TrimStart(s);
    if t != [] && (t[0] == '-' || t[0] == '+') then t[1..] else t
  }

  predicate Negative(s: string)
  {
    TrimStart(s) != [] && TrimStart(s)[0] == '-'
  }

  /** The unsigned text starts with the hexadecimal marker "0x" or "0X". */
  predicate HexMarked(u: string)
  {
    |u| >= 2 && u[0] == '0' && (u[1] == 'x' || u[1] == 'X')
  }

  /** `parseInt(s)`: the radix is 16 when the unsigned text starts with
      "0x" or "0X" and 10 otherwise; NaN when no digit of that radix
      follows. Without the marker it is `parseInt(s, 10)`. */
  function ParseIntAuto(s: string): (n: Num)
    ensures !HexMarked(Unsigned(s)) ==> n == ParseInt(s)
    ensures HexMarked(Unsigned(s)) ==>
      var d := HexPrefix(Unsigned(s)[2..]);
      (n.NaN? <==> d == []) &&
      (n.Int? ==> n.i == if Negative(s) then 0 - HexDigitsValue(d) else HexDigitsValue(d))
  {
    var u := Unsigned(s);
    if HexMarked(u) then
      var d := HexPrefix(u[2..]);
      if d == [] then NaN
      else if Negative(s) then Int(0 - HexDigitsValue(d))
      else Int(HexDigitsValue(d))
    else
      var d := DigitPrefix(u);
      if d == [] then NaN
      else if Negative(s) then Int(0 - DigitsValue(d))
      else Int(DigitsValue(d))
  }

  /** The decimal text of a number carries no hexadecimal marker, so
      `parseInt(String(n)) == n` also without a radix. */
  lemma ParseAutoDecimalString(n: nat)
    ensures ParseIntAuto(DecimalString(n)) == Int(n)
  {
    var s := DecimalString(n);
    assert TrimStart(s) == s by {
      assert !IsSpace(s[0]);
    }
    assert !HexMarked(Unsigned(s)) by {
      if |s| >= 2 { assert IsDigit(s[1]); }
    }
    ParseDecimalString(n);
  }

  /** "0x1f" reads as 31 without a radix, while `parseInt("0x1f", 10)` stops
      at the "x" and reads 0. */
  lemma HexMarkerExample()
    ensures ParseIntAuto("0x1f") == Int(31)
    ensures ParseInt("0x1f") == Int(0)
  {
    var s := "0x1f";
    assert TrimStart(s) == s by { assert !IsSpace(s[0]); }
    assert Unsigned(s) == s;
    assert s[2..] == "1f";
    assert HexPrefix("f") == "f";
    assert HexPrefix("1f") == "1f";
    assert "1f"[..1] == "1";
    assert HexDigitsValue("1f") == 31;
    assert DigitPrefix(s) == "0" by {
      assert DigitPrefix(s[1..]) == [];
    }
  }

  /** `parseInt(String(n)) == n`: parsing the decimal text of a number gives
      the number back. */
  lemma ParseDecimalString(n: nat)
    ensures ParseInt(DecimalString(n)) == Int(n)
  {
    var s := DecimalString(n);
    assert TrimStart(s) == s by {
      assert !IsSpace(s[0]);
    }
    DigitPrefixOfDigits(s);
    DecimalStringValue(n);
  }

  // ---------------------------------------------------------------------
  // Facts about the digit filter and `trim()` used by the line parser

  /** The digit filter distributes over concatenation. */
  lemma {:induction false} DigitsAppend(a: string, b: string)
    ensures Digits(a + b) == Digits(a) + Digits(b)
  {
    if a != [] {
      assert (a + b)[0] == a[0];
      assert (a + b)[1..] == a[1..] + b;
      DigitsAppend(a[1..], b);
    } else {
      assert a + b == b;
    }
  }

  /** A string with no white space at either end is its own trim; in
      particular trimming twice is trimming once. */
  lemma TrimmedAlready(s: string)
    requires s != [] ==> !IsSpace(s[0]) && !IsSpace(s[|s| - 1])
    ensures Trim(s) == s
    ensures Trim(Trim(s)) == Trim(s)
  {
    assert TrimStart(s) == s;
  }

  lemma TrimIdempotent(s: string)
    ensures Trim(Trim(s)) == Trim(s)
  {
    TrimmedAlready(Trim(s));
  }

  /** Leading white space is dropped by `trim()`. */
  lemma TrimLeadingSpace(c: char, s: string)
    requires IsSpace(c)
    ensures Trim([c] + s) == Trim(s)
  {
    assert ([c] + s)[1..] == s;
  }

  /** `trim()` keeps a contiguous piece of its input, so every character of
      the result occurs in the input. */
  lemma TrimChars(s: string)
    ensures forall c :: c in Trim(s) ==> c in s
  {
    var t := TrimStart(s);
    var r := Trim(s);
    assert t == s[|s| - |t|..];
    assert r == t[..|r|];
    forall c | c in r ensures c in s {
      var i :| 0 <= i < |r| && r[i] == c;
      assert s[|s| - |t| + i] == c;
    }
  }
}
