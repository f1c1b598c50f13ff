/**
 * Ally codes (src/utils/ally-code.ts): a player's 9-digit identifier in the
 * game, typed by users with or without dashes and spaces.
 */
module AllyCode {
  import opened Js

  /** What `normalizeAllyCode` accepts: a string, an integer, or null/undefined. */
  datatype Value = Absent | Text(s: string) | Number(n: int)

  /** `value.toString()` for the string and integer cases. */
  function ToText(v: Value): string
    requires !v.Absent?
  {
    match v
    case Text(s) => s
    case Number(n) => if n >= 0 then DecimalString(n) else "-" + DecimalString(-n)
  }

  /** A normalised ally code: exactly nine decimal digits. */
  predicate IsAllyCode(s: string) { |s| == 9 && AllDigits(s) }

  /** `normalizeAllyCode`: the digits of the input when there are exactly
      nine of them, otherwise null. */
  function Normalize(v: Value): (r: Option<string>)
    ensures v.Absent? ==> r.None?
    ensures !v.Absent? ==> (r.Some? <==> |Digits(ToText(v))| == 9)
    ensures r.Some? ==> IsAllyCode(r.value) && r.value == Digits(ToText(v))
  {
    if v.Absent? then None
    else
      var digits := Digits(ToText(v));
      DigitsAreDigits(ToText(v));
      if |digits| != 9 then None else Some(digits)
  }

  /** Dashes, spaces and any other non-digit characters typed inside a code
      do not matter: "123-456-789" and "123456789" normalise alike. */
  lemma NormalizeIgnoresSeparator(a: string, c: char, b: string)
    requires !IsDigit(c)
    ensures Normalize(Text(a + [c] + b)) == Normalize(Text(a + b))
  {
    assert Digits([c]) == [] by {
      assert [c][1..] == [];
    }
    DigitsAppend(a + [c], b);
    DigitsAppend(a, [c]);
    DigitsAppend(a, b);
    assert Digits(a + [c] + b) == Digits(a + b);
  }

  /** Normalising a normalised code gives it back. */
  lemma NormalizeIdempotent(v: Value)
    requires Normalize(v).Some?
    ensures Normalize(Text(Normalize(v).value)) == Normalize(v)
  {
    DigitsOfDigits(Normalize(v).value);
  }

  /** The strings that normalisation leaves unchanged are exactly the valid
      ally codes. */
  lemma NormalizeFixedPoints(s: string)
    ensures Normalize(Text(s)) == Some(s) <==> IsAllyCode(s)
  {
    if IsAllyCode(s) {
      DigitsOfDigits(s);
    }
  }

  /** `sanitizeAllyCodeList`: normalise every entry and keep the valid ones,
      in order; an absent list is empty. */
  function SanitizeList(codes: Option<seq<Value>>): (r: seq<string>)
    ensures forall k :: 0 <= k < |r| ==> IsAllyCode(r[k])
    ensures codes.None? ==> r == []
    ensures codes.Some? ==> |r| <= |codes.value|
  {
    match codes
    case None => []
    case Some(list) => Sanitize(list)
  }

  function Sanitize(list: seq<Value>): (r: seq<string>)
    ensures forall k :: 0 <= k < |r| ==> IsAllyCode(r[k])
    ensures |r| <= |list|
  {
    if list == [] then []
    else
      var head := Normalize(list[0]);
      (if head.Some? then [head.value] else []) + Sanitize(list[1..])
  }

  /** Sanitising distributes over concatenation: the result keeps the
      order of the input. */
  lemma {:induction false} SanitizeAppend(a: seq<Value>, b: seq<Value>)
    ensures Sanitize(a + b) == Sanitize(a) + Sanitize(b)
  {
    if a == [] {
      assert a + b == b;
    } else {
      assert (a + b)[0] == a[0];
      assert (a + b)[1..] == a[1..] + b;
      SanitizeAppend(a[1..], b);
    }
  }

  /** A code is in the sanitised list iff some entry normalises to it. */
  lemma {:induction false} SanitizeMembers(list: seq<Value>, c: string)
    ensures c in Sanitize(list) <==> exists k :: 0 <= k < |list| && Normalize(list[k]) == Some(c)
  {
    if list != [] {
      SanitizeMembers(list[1..], c);
      if exists k :: 0 <= k < |list[1..]| && Normalize(list[1..][k]) == Some(c) {
        var k :| 0 <= k < |list[1..]| && Normalize(list[1..][k]) == Some(c);
        assert list[k + 1] == list[1..][k];
      }
      if exists k :: 0 <= k < |list| && Normalize(list[k]) == Some(c) {
        var k :| 0 <= k < |list| && Normalize(list[k]) == Some(c);
        if k > 0 { assert list[1..][k - 1] == list[k]; }
      }
    }
  }
}
