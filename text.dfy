/**
 * The string operations the server relies on: `String.Split(',')`, joining fields with a
 * separator, `int.Parse`/`int.TryParse` on 32-bit integers, and the decimal formatting of an
 * `int` that string concatenation and interpolation perform.
 */
module Text {
  import opened Wrappers

  /** The fields of `s` between occurrences of `sep`, empty fields included (C#'s `Split(char)`). */
  function Split(s: string, sep: char): (r: seq<string>)
    ensures |r| >= 1
    ensures forall i :: 0 <= i < |r| ==> sep !in r[i]
    decreases |s|
  {
    if s == [] then [""]
    else
      var rest := Split(s[1..], sep);
      if s[0] == sep then [""] + rest
      else [[s[0]] + rest[0]] + rest[1..]
  }

  /** The fields separated by `sep`; the inverse of `Split` on fields free of `sep`. */
  function Join(fields: seq<string>, sep: char): string
  {
    if |fields| == 0 then ""
    else if |fields| == 1 then fields[0]
    else fields[0] + [sep] + Join(fields[1..], sep)
  }

  lemma {:induction false} SplitNoSeparator(a: string, sep: char)
    requires sep !in a
    ensures Split(a, sep) == [a]
    decreases |a|
  {
    if a != [] {
      SplitNoSeparator(a[1..], sep);
      assert [a[0]] + a[1..] == a;
    }
  }

  lemma {:induction false} SplitAtSeparator(a: string, sep: char, b: string)
    requires sep !in a
    ensures Split(a + [sep] + b, sep) == [a] + Split(b, sep)
    decreases |a|
  {
    var s := a + [sep] + b;
    if a == [] {
      assert s[1..] == b;
    } else {
      assert s[0] == a[0] && s[1..] == a[1..] + [sep] + b;
      SplitAtSeparator(a[1..], sep, b);
      assert [a[0]] + a[1..] == a;
    }
  }

  /** Splitting a joined list of separator-free fields gives the fields back. */
  lemma {:induction false} SplitJoin(fields: seq<string>, sep: char)
    requires |fields| >= 1
    requires forall i :: 0 <= i < |fields| ==> sep !in fields[i]
    ensures Split(Join(fields, sep), sep) == fields
    decreases |fields|
  {
    if |fields| == 1 {
      SplitNoSeparator(fields[0], sep);
    } else {
      SplitJoin(fields[1..], sep);
      SplitAtSeparator(fields[0], sep, Join(fields[1..], sep));
      assert [fields[0]] + fields[1..] == fields;
    }
  }

  /** Three separator-free fields written with two separators split back into those fields. */
  lemma SplitThreeFields(x: string, y: string, z: string, sep: char)
    requires sep !in x && sep !in y && sep !in z
    ensures Split(x + [sep] + y + [sep] + z, sep) == [x, y, z]
  {
    assert x + [sep] + y + [sep] + z == x + [sep] + (y + [sep] + z);
    SplitAtSeparator(x, sep, y + [sep] + z);
    SplitAtSeparator(y, sep, z);
    SplitNoSeparator(z, sep);
  }

  /** Joining the fields of any string with the separator gives the string back. */
  lemma {:induction false} JoinSplit(s: string, sep: char)
    ensures Join(Split(s, sep), sep) == s
    decreases |s|
  {
    if s != [] {
      var rest := Split(s[1..], sep);
      JoinSplit(s[1..], sep);
      if s[0] != sep && |rest| > 1 {
        assert ([s[0]] + rest[0]) + [sep] + Join(rest[1..], sep) == [s[0]] + Join(rest, sep);
      }
    }
  }

  // ---------------------------------------------------------------------------------------
  // Lengths as .NET counts them

  /**
   * `String.Length` in .NET counts UTF-16 code units: a character outside the Basic
   * Multilingual Plane is stored as a surrogate pair and counts twice.
   */
  function Utf16Length(s: string): (n: nat)
    ensures |s| <= n <= 2 * |s|
  {
    if s == [] then 0
    else (if s[0] as int < 0x1_0000 then 1 else 2) + Utf16Length(s[1..])
  }

  /** A string has .NET length one exactly when it is one character of the Basic Multilingual Plane. */
  lemma Utf16LengthOne(s: string)
    ensures Utf16Length(s) == 1 <==> |s| == 1 && s[0] as int < 0x1_0000
  {
    if |s| >= 1 {
      assert Utf16Length(s) >= 1 + |s[1..]|;
    }
  }

  // ---------------------------------------------------------------------------------------
  // 32-bit integers as text

  const MinInt32: int := -0x8000_0000
  const MaxInt32: int := 0x7FFF_FFFF

  predicate IsInt32(n: int) { MinInt32 <= n <= MaxInt32 }

  /** The white space `int.Parse` skips before and after the number: U+0009 to U+000D and U+0020. */
  predicate IsWhiteSpace(c: char) { c == ' ' || '\t' <= c <= '\r' }

  predicate IsDigit(c: char) { '0' <= c <= '9' }

  predicate AllDigits(s: string) { forall i :: 0 <= i < |s| ==> IsDigit(s[i]) }

  /** `TrimStart()` for the white space above. */
  function TrimStart(s: string): string
  {
    if s != [] && IsWhiteSpace(s[0]) then TrimStart(s[1..]) else s
  }

  /** `TrimEnd()` for the white space above. */
  function TrimEnd(s: string): string
  {
    if s != [] && IsWhiteSpace(s[|s| - 1]) then TrimEnd(s[..|s| - 1]) else s
  }

  /** Trimming the front drops white space only, up to the first other character. */
  lemma {:induction false} TrimStartDropsLeadingWhiteSpace(s: string)
    ensures var r := TrimStart(s);
      && |r| <= |s| && r == s[|s| - |r|..]
      && (forall i :: 0 <= i < |s| - |r| ==> IsWhiteSpace(s[i]))
      && (r == [] || !IsWhiteSpace(r[0]))
  {
    if s != [] && IsWhiteSpace(s[0]) {
      var tail := s[1..];
      TrimStartDropsLeadingWhiteSpace(tail);
      var n := |tail| - |TrimStart(tail)|;
      assert TrimStart(s) == tail[n..] == s[n + 1..];
      forall i | 1 <= i < n + 1 ensures IsWhiteSpace(s[i]) {
        assert s[i] == tail[i - 1];
      }
    }
  }

  /** Trimming the back drops white space only, up to the last other character. */
  lemma {:induction false} TrimEndDropsTrailingWhiteSpace(s: string)
    ensures var r := TrimEnd(s);
      && |r| <= |s| && r == s[..|r|]
      && (forall i :: |r| <= i < |s| ==> IsWhiteSpace(s[i]))
      && (r == [] || !IsWhiteSpace(r[|r| - 1]))
  {
    if s != [] && IsWhiteSpace(s[|s| - 1]) {
      var init := s[..|s| - 1];
      TrimEndDropsTrailingWhiteSpace(init);
      var n := |TrimEnd(init)|;
      assert TrimEnd(s) == init[..n] == s[..n];
      forall i | n <= i < |init| ensures IsWhiteSpace(s[i]) {
        assert s[i] == init[i];
      }
    }
  }

  /** The value of a string of decimal digits, most significant first. */
  function DigitsValue(s: string): nat
    requires AllDigits(s)
  {
    if s == [] then 0
    else DigitsValue(s[..|s| - 1]) * 10 + (s[|s| - 1] as int - '0' as int)
  }

  /**
   * `int.Parse` / `int.TryParse` with the default number style: optional surrounding white
   * space, an optional `+` or `-`, at least one decimal digit, and a value that fits in 32 bits.
   * `None` is the `FormatException`/`OverflowException` of `Parse` and the `false` of `TryParse`.
   */
  function ParseInt32(s: string): (r: Option<int>)
    ensures r.Some? ==> IsInt32(r.value)
  {
    var t := TrimEnd(TrimStart(s));
    var negative := |t| > 0 && t[0] == '-';
    var digits := if |t| > 0 && (t[0] == '-' || t[0] == '+') then t[1..] else t;
    if |digits| == 0 || !AllDigits(digits) then None
    else
      var value := DigitsValue(digits) as int;
      var v := if negative then -value else value;
      if IsInt32(v) then Some(v) else None
  }

  function DigitChar(d: nat): (c: char)
    requires d < 10
    ensures IsDigit(c) && c as int - '0' as int == d
  {
    ('0' as int + d) as char
  }

  function NatToString(n: nat): (s: string)
    ensures |s| >= 1 && AllDigits(s)
  {
    if n < 10 then [DigitChar(n)] else NatToString(n / 10) + [DigitChar(n % 10)]
  }

  /** The decimal text of `n`, with a leading `-` when negative. */
  function IntToString(n: int): (s: string)
    ensures |s| >= 1 && (s[0] == '-' || IsDigit(s[0]))
    ensures s[0] == '-' <==> n < 0
    ensures n < 0 ==> |s| >= 2
    ensures forall i :: 0 < i < |s| ==> IsDigit(s[i])
  {
    if n < 0 then
      var digits := NatToString(-n);
      assert forall i :: 0 < i < |digits| + 1 ==> ("-" + digits)[i] == digits[i - 1];
      "-" + digits
    else NatToString(n)
  }

  lemma {:induction false} NatToStringValue(n: nat)
    ensures DigitsValue(NatToString(n)) == n
    decreases n
  {
    var s := NatToString(n);
    if n >= 10 {
      NatToStringValue(n / 10);
      assert s[..|s| - 1] == NatToString(n / 10);
    }
  }

  lemma TrimUnpadded(s: string)
    requires |s| >= 1 && !IsWhiteSpace(s[0]) && !IsWhiteSpace(s[|s| - 1])
    ensures TrimEnd(TrimStart(s)) == s
  {
  }

  /** Formatting a 32-bit integer and parsing the text back gives the integer. */
  lemma ParseIntToString(n: int)
    requires IsInt32(n)
    ensures ParseInt32(IntToString(n)) == Some(n)
  {
    var m := if n < 0 then -n else n;
    var s := IntToString(n);
    var digits := NatToString(m);
    NatToStringValue(m);
    TrimUnpadded(s);
    if n < 0 {
      assert s == "-" + digits && s[1..] == digits;
    } else {
      assert s == digits && s[0] != '-' && s[0] != '+';
    }
  }

  /** A formatted integer never holds a comma, so it can stand as one field of a message. */
  lemma IntToStringHasNoComma(n: int)
    ensures ',' !in IntToString(n)
  {
  }
}
