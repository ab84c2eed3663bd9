/**
 * The JavaScript string built-ins that the patient roster relies on, over
 * `string` (a sequence of characters): `toLowerCase` (ASCII letters only),
 * `includes`, `trim`, `split` with a one-character separator, and
 * `parseInt` with no radix argument.
 */
module JsStrings {
  import opened Wrappers

  /** A WhiteSpace or LineTerminator character of ECMAScript: what `trim` removes and `parseInt` skips. */
  predicate IsWhiteSpace(c: char) {
    || c == '\t' || c == '\n' || c == '\U{000B}' || c == '\U{000C}' || c == '\r'
    || c == ' ' || c == '\U{00A0}' || c == '\U{1680}' || ('\U{2000}' <= c <= '\U{200A}')
    || c == '\U{2028}' || c == '\U{2029}' || c == '\U{202F}' || c == '\U{205F}'
    || c == '\U{3000}' || c == '\U{FEFF}'
  }

  predicate AllWhiteSpace(s: string) {
    forall i :: 0 <= i < |s| ==> IsWhiteSpace(s[i])
  }

  predicate IsUpper(c: char) {
    'A' <= c <= 'Z'
  }

  function LowerChar(c: char): char {
    if IsUpper(c) then (c as int + 32) as char else c
  }

  /** `s.toLowerCase()`, for the ASCII letters. */
  function ToLower(s: string): (r: string)
    ensures |r| == |s|
    ensures forall i :: 0 <= i < |r| ==> !IsUpper(r[i])
    ensures forall i :: 0 <= i < |s| && !IsUpper(s[i]) ==> r[i] == s[i]
    ensures forall i :: 0 <= i < |s| && IsUpper(s[i]) ==> r[i] as int == s[i] as int - 'A' as int + 'a' as int
  {
    seq(|s|, i requires 0 <= i < |s| => LowerChar(s[i]))
  }

  lemma ToLowerIdempotent(s: string)
    ensures ToLower(ToLower(s)) == ToLower(s)
  {
  }

  // ---------------------------------------------------------------------
  // includes

  predicate StartsWith(s: string, prefix: string) {
    |prefix| <= |s| && s[..|prefix|] == prefix
  }

  /** `s.includes(needle)`: tries every start position from the left. */
  predicate Includes(s: string, needle: string)
    ensures Includes(s, needle) ==> |needle| <= |s|
    ensures |needle| == |s| ==> (Includes(s, needle) <==> s == needle)
    decreases |s|
  {
    StartsWith(s, needle) || (|s| > 0 && Includes(s[1..], needle))
  }

  /** `needle` occurs in `s` at position `i`. */
  predicate OccursAt(s: string, needle: string, i: int) {
    0 <= i && i + |needle| <= |s| && s[i..i + |needle|] == needle
  }

  lemma {:induction false} OccurrenceIsIncluded(s: string, needle: string, i: int)
    requires OccursAt(s, needle, i)
    ensures Includes(s, needle)
    decreases i
  {
    if i > 0 {
      assert s[1..][i - 1..i - 1 + |needle|] == s[i..i + |needle|];
      OccurrenceIsIncluded(s[1..], needle, i - 1);
    }
  }

  lemma {:induction false} IncludedOccurs(s: string, needle: string) returns (i: int)
    requires Includes(s, needle)
    ensures OccursAt(s, needle, i)
    decreases |s|
  {
    if StartsWith(s, needle) {
      i := 0;
    } else {
      var j := IncludedOccurs(s[1..], needle);
      assert s[1..][j..j + |needle|] == s[j + 1..j + 1 + |needle|];
      i := j + 1;
    }
  }

  /** `includes` holds exactly when the needle occurs somewhere in the string. */
  lemma IncludesIffOccurs(s: string, needle: string)
    ensures Includes(s, needle) <==> exists i :: OccursAt(s, needle, i)
  {
    if Includes(s, needle) {
      var i := IncludedOccurs(s, needle);
    }
    forall i | OccursAt(s, needle, i)
      ensures Includes(s, needle)
    {
      OccurrenceIsIncluded(s, needle, i);
    }
  }

  lemma IncludesEmpty(s: string)
    ensures Includes(s, "")
  {
    assert StartsWith(s, "");
  }

  // ---------------------------------------------------------------------
  // trim

  /** The number of white-space characters at the front of `s`. */
  function LeadingSpace(s: string): (k: nat)
    ensures k <= |s|
    ensures AllWhiteSpace(s[..k])
    ensures k < |s| ==> !IsWhiteSpace(s[k])
  {
    if s != [] && IsWhiteSpace(s[0]) then 1 + LeadingSpace(s[1..]) else 0
  }

  /** The number of white-space characters at the back of `s`. */
  function TrailingSpace(s: string): (k: nat)
    ensures k <= |s|
    ensures AllWhiteSpace(s[|s| - k..])
    ensures k < |s| ==> !IsWhiteSpace(s[|s| - 1 - k])
  {
    if s != [] && IsWhiteSpace(s[|s| - 1]) then 1 + TrailingSpace(s[..|s| - 1]) else 0
  }

  function TrimStart(s: string): string {
    s[LeadingSpace(s)..]
  }

  function TrimEnd(s: string): string {
    s[..|s| - TrailingSpace(s)]
  }

  /** Neither end of `s` is white space. */
  predicate IsTrimmed(s: string) {
    s == [] || (!IsWhiteSpace(s[0]) && !IsWhiteSpace(s[|s| - 1]))
  }

  /** `s.trim()`: the middle of `s` left after removing white space from both ends. */
  function Trim(s: string): (r: string)
    ensures IsTrimmed(r)
    ensures exists i, j :: 0 <= i <= j <= |s| && r == s[i..j] && AllWhiteSpace(s[..i]) && AllWhiteSpace(s[j..])
  {
    var i := LeadingSpace(s);
    var t := s[i..];
    var j := i + |t| - TrailingSpace(t);
    assert t[..|t| - TrailingSpace(t)] == s[i..j];
    assert t[|t| - TrailingSpace(t)..] == s[j..];
    TrimEnd(t)
  }

  lemma TrimIsTrimEndOfTrimStart(s: string)
    ensures Trim(s) == TrimEnd(TrimStart(s))
  {
  }

  lemma {:induction false} LeadingSpaceOfPadded(front: string, t: string)
    requires AllWhiteSpace(front)
    requires t == [] || !IsWhiteSpace(t[0])
    ensures LeadingSpace(front + t) == |front|
    decreases |front|
  {
    if front == [] {
      assert front + t == t;
    } else {
      assert (front + t)[1..] == front[1..] + t;
      LeadingSpaceOfPadded(front[1..], t);
    }
  }

  lemma {:induction false} TrailingSpaceOfPadded(t: string, back: string)
    requires AllWhiteSpace(back)
    requires t == [] || !IsWhiteSpace(t[|t| - 1])
    ensures TrailingSpace(t + back) == |back|
    decreases |back|
  {
    if back == [] {
      assert t + back == t;
    } else {
      assert (t + back)[..|t + back| - 1] == t + back[..|back| - 1];
      TrailingSpaceOfPadded(t, back[..|back| - 1]);
    }
  }

  /** Trimming white space padded around a trimmed string gives that string back. */
  lemma {:induction false} TrimPadded(front: string, t: string, back: string)
    requires AllWhiteSpace(front) && AllWhiteSpace(back) && IsTrimmed(t)
    ensures Trim(front + t + back) == t
  {
    var s := front + t + back;
    if t == [] {
      assert TrimStart(s) == [] by {
        assert s == front + back;
        assert AllWhiteSpace(s) by {
          forall i | 0 <= i < |s| ensures IsWhiteSpace(s[i]) {
            if i < |front| { assert s[i] == front[i]; } else { assert s[i] == back[i - |front|]; }
          }
        }
        LeadingSpaceOfPadded(s, []);
        assert s + [] == s;
      }
      TrimIsTrimEndOfTrimStart(s);
    } else {
      calc {
        Trim(s);
        { TrimIsTrimEndOfTrimStart(s); }
        TrimEnd(TrimStart(s));
        { assert TrimStart(s) == t + back by {
            assert s == front + (t + back);
            LeadingSpaceOfPadded(front, t + back);
            assert s[|front|..] == t + back;
          }
        }
        TrimEnd(t + back);
        { TrailingSpaceOfPadded(t, back);
          assert (t + back)[..|t|] == t;
        }
        t;
      }
    }
  }

  lemma TrimIdempotent(s: string)
    ensures Trim(Trim(s)) == Trim(s)
  {
    TrimPadded("", Trim(s), "");
    assert "" + Trim(s) + "" == Trim(s);
  }

  // ---------------------------------------------------------------------
  // split and join with a one-character separator

  /** `s.split(sep)`: the pieces between separators, one more piece than there are separators. */
  function Split(s: string, sep: char): (parts: seq<string>)
    ensures |parts| == multiset(s)[sep] + 1
    ensures forall k :: 0 <= k < |parts| ==> sep !in parts[k]
  {
    if s == [] then [""]
    else
      assert s == [s[0]] + s[1..];
      var rest := Split(s[1..], sep);
      if s[0] == sep then [""] + rest
      else [[s[0]] + rest[0]] + rest[1..]
  }

  /** `parts.join(sep)`. */
  function Join(parts: seq<string>, sep: char): string {
    if |parts| == 0 then ""
    else if |parts| == 1 then parts[0]
    else parts[0] + [sep] + Join(parts[1..], sep)
  }

  lemma {:induction false} JoinExtendsFirst(c: char, parts: seq<string>, sep: char)
    requires |parts| > 0
    ensures Join([[c] + parts[0]] + parts[1..], sep) == [c] + Join(parts, sep)
  {
    var ps := [[c] + parts[0]] + parts[1..];
    assert ps[1..] == parts[1..];
  }

  /** Joining the pieces of a split with the same separator restores the text. */
  lemma {:induction false} JoinSplit(s: string, sep: char)
    ensures Join(Split(s, sep), sep) == s
    decreases |s|
  {
    if s != [] {
      var rest := Split(s[1..], sep);
      JoinSplit(s[1..], sep);
      if s[0] == sep {
        assert Join(Split(s, sep), sep) == s by {
          assert Split(s, sep) == [""] + rest;
          JoinAfterEmptyFirst(rest, sep);
          assert s == [sep] + s[1..];
        }
      } else {
        assert Join(Split(s, sep), sep) == s by {
          assert Split(s, sep) == [[s[0]] + rest[0]] + rest[1..];
          JoinExtendsFirst(s[0], rest, sep);
          assert s == [s[0]] + s[1..];
        }
      }
    }
  }

  lemma JoinAfterEmptyFirst(parts: seq<string>, sep: char)
    requires |parts| > 0
    ensures Join([""] + parts, sep) == [sep] + Join(parts, sep)
  {
    assert ([""] + parts)[1..] == parts;
  }

  lemma {:induction false} SplitPiece(p: string, sep: char, tail: string)
    requires sep !in p
    ensures Split(p + [sep] + tail, sep) == [p] + Split(tail, sep)
    ensures Split(p, sep) == [p]
    decreases |p|
  {
    if p != [] {
      var s := p + [sep] + tail;
      assert s[0] == p[0] && s[1..] == p[1..] + [sep] + tail;
      SplitPiece(p[1..], sep, tail);
      assert [p[0]] + p[1..] == p;
    }
  }

  /** Splitting a join of separator-free pieces gives the pieces back. */
  lemma {:induction false} SplitJoin(parts: seq<string>, sep: char)
    requires |parts| > 0
    requires forall k :: 0 <= k < |parts| ==> sep !in parts[k]
    ensures Split(Join(parts, sep), sep) == parts
    decreases |parts|
  {
    SplitPiece(parts[0], sep, "");
    if |parts| > 1 {
      SplitPiece(parts[0], sep, Join(parts[1..], sep));
      SplitJoin(parts[1..], sep);
    }
  }

  // ---------------------------------------------------------------------
  // parseInt

  predicate IsDecimalDigit(c: char) {
    '0' <= c <= '9'
  }

  /** A digit of radix 10 or, when `hex` holds, of radix 16. */
  predicate IsDigit(c: char, hex: bool) {
    IsDecimalDigit(c) || (hex && ('a' <= c <= 'f' || 'A' <= c <= 'F'))
  }

  function DigitValue(c: char): nat {
    if IsDecimalDigit(c) then c as int - '0' as int
    else if 'a' <= c <= 'f' then c as int - 'a' as int + 10
    else if 'A' <= c <= 'F' then c as int - 'A' as int + 10
    else 0
  }

  /** The longest prefix of `s` made of digits. */
  function DigitRun(s: string, hex: bool): (z: string)
    ensures z <= s
    ensures forall i :: 0 <= i < |z| ==> IsDigit(z[i], hex)
    ensures |z| < |s| ==> !IsDigit(s[|z|], hex)
  {
    if s != [] && IsDigit(s[0], hex) then [s[0]] + DigitRun(s[1..], hex) else []
  }

  /** The number a digit string denotes, most significant digit first. */
  function DigitsValue(z: string, hex: bool): nat {
    if z == [] then 0
    else DigitsValue(z[..|z| - 1], hex) * (if hex then 16 else 10) + DigitValue(z[|z| - 1])
  }

  /**
   * `Number.parseInt(s)` with no radix: skip leading white space, take an
   * optional sign, then read the magnitude. No digits at all gives `None`
   * (JavaScript's NaN).
   */
  function ParseInt(s: string): (r: Option<int>)
    ensures r.Some? ==> exists i :: 0 <= i < |s| && IsDecimalDigit(s[i])
    ensures r.Some? && r.value < 0 ==> '-' in s
  {
    ParseSigned(TrimStart(s))
  }

  /** An optional sign, then the magnitude. */
  function ParseSigned(t: string): (r: Option<int>)
    ensures r.Some? ==> |t| > 0 && (IsDecimalDigit(t[0]) || (|t| > 1 && (t[0] == '-' || t[0] == '+') && IsDecimalDigit(t[1])))
    ensures r.Some? && r.value < 0 ==> t[0] == '-'
  {
    if |t| > 0 && (t[0] == '-' || t[0] == '+') then
      match ParseMagnitude(t[1..])
      case None => None
      case Some(v) =>
        var magnitude: int := v;
        Some(if t[0] == '-' then -magnitude else magnitude)
    else
      ParseMagnitude(t)
  }

  /** A "0x" or "0X" prefix switches to radix 16; then the longest run of digits. */
  function ParseMagnitude(u: string): (m: Option<nat>)
    ensures m.Some? ==> |u| > 0 && IsDecimalDigit(u[0])
    ensures |u| >= 2 && u[0] == '0' && (u[1] == 'x' || u[1] == 'X') ==> (m.Some? <==> |u| > 2 && IsDigit(u[2], true))
    ensures |u| > 0 && IsDecimalDigit(u[0]) && !(|u| >= 2 && u[0] == '0' && (u[1] == 'x' || u[1] == 'X')) ==> m.Some?
  {
    var hex := |u| >= 2 && u[0] == '0' && (u[1] == 'x' || u[1] == 'X');
    var z := DigitRun(if hex then u[2..] else u, hex);
    if z == [] then None else Some(DigitsValue(z, hex))
  }

  function DigitChar(d: nat): (c: char)
    requires d < 10
    ensures IsDecimalDigit(c) && DigitValue(c) == d
  {
    ('0' as int + d) as char
  }

  /** The decimal numeral of `n`, as `String(n)` writes it. */
  function Decimal(n: nat): (s: string)
    ensures |s| > 0
    ensures forall i :: 0 <= i < |s| ==> IsDecimalDigit(s[i])
    ensures s[0] == '0' ==> n == 0 && s == "0"
  {
    if n < 10 then [DigitChar(n)] else Decimal(n / 10) + [DigitChar(n % 10)]
  }

  function IntToString(n: int): string {
    if n < 0 then "-" + Decimal(-n) else Decimal(n)
  }

  lemma {:induction false} DecimalValue(n: nat)
    ensures DigitsValue(Decimal(n), false) == n
  {
    if n >= 10 {
      var s := Decimal(n);
      assert s[..|s| - 1] == Decimal(n / 10);
      DecimalValue(n / 10);
    }
  }

  lemma {:induction false} DigitRunStopsAtEnd(z: string, rest: string, hex: bool)
    requires forall i :: 0 <= i < |z| ==> IsDigit(z[i], hex)
    requires rest == [] || !IsDigit(rest[0], hex)
    ensures DigitRun(z + rest, hex) == z
    decreases |z|
  {
    if z == [] {
      assert z + rest == rest;
    } else {
      assert (z + rest)[1..] == z[1..] + rest;
      DigitRunStopsAtEnd(z[1..], rest, hex);
    }
  }

  lemma MagnitudeOfNumeral(m: nat, rest: string)
    requires rest == [] || (!IsDecimalDigit(rest[0]) && !(m == 0 && (rest[0] == 'x' || rest[0] == 'X')))
    ensures ParseMagnitude(Decimal(m) + rest) == Some(m)
  {
    var d := Decimal(m);
    var u := d + rest;
    assert !(|u| >= 2 && u[0] == '0' && (u[1] == 'x' || u[1] == 'X')) by {
      if |u| >= 2 && u[0] == '0' {
        assert d == "0" && u[1] == rest[0];
      }
    }
    DigitRunStopsAtEnd(d, rest, false);
    DecimalValue(m);
  }

  lemma SignedOfNumeral(n: int, rest: string)
    requires rest == [] || (!IsDecimalDigit(rest[0]) && !(n == 0 && (rest[0] == 'x' || rest[0] == 'X')))
    ensures ParseSigned(IntToString(n) + rest) == Some(n)
  {
    if n < 0 {
      var u := Decimal(-n) + rest;
      assert IntToString(n) + rest == "-" + u;
      MagnitudeOfNumeral(-n, rest);
      SignedNegative(u, -n);
    } else {
      var t := Decimal(n) + rest;
      assert t[0] == Decimal(n)[0];
      MagnitudeOfNumeral(n, rest);
      UnsignedMagnitude(t);
    }
  }

  lemma SignedNegative(u: string, m: nat)
    requires ParseMagnitude(u) == Some(m)
    ensures ParseSigned("-" + u) == Some(-(m as int))
  {
    assert ("-" + u)[1..] == u;
  }

  lemma UnsignedMagnitude(t: string)
    requires |t| > 0 && IsDecimalDigit(t[0])
    ensures ParseSigned(t) == ParseMagnitude(t)
  {
  }

  /** A run of decimal digits is read as the number it denotes, leading zeros included. */
  lemma MagnitudeOfDigits(z: string, rest: string)
    requires z != [] && DigitRun(z, false) == z
    requires rest == [] || !IsDecimalDigit(rest[0])
    requires !(z == "0" && rest != [] && (rest[0] == 'x' || rest[0] == 'X'))
    ensures ParseMagnitude(z + rest) == Some(DigitsValue(z, false))
  {
    var u := z + rest;
    assert !(|u| >= 2 && u[0] == '0' && (u[1] == 'x' || u[1] == 'X')) by {
      if |u| >= 2 {
        if |z| == 1 {
          assert u[0] == z[0] && u[1] == rest[0];
        } else {
          assert u[1] == z[1];
        }
      }
    }
    DigitRunStopsAtEnd(z, rest, false);
  }

  /** After "0x" or "0X", a run of hexadecimal digits is read in radix 16 as the number `value` it denotes. */
  lemma MagnitudeOfHexDigits(x: char, z: string, rest: string, value: nat)
    requires x == 'x' || x == 'X'
    requires z != [] && DigitRun(z, true) == z
    requires rest == [] || !IsDigit(rest[0], true)
    requires value == DigitsValue(z, true)
    ensures ParseMagnitude(['0', x] + z + rest) == Some(value)
  {
    var u := ['0', x] + z + rest;
    assert |u| >= 2 && u[0] == '0' && u[1] == x;
    assert DigitRun(u[2..], true) == z by {
      assert u[2..] == z + rest;
      DigitRunStopsAtEnd(z, rest, true);
    }
  }

  /** A sign in front of a magnitude: '-' negates it, '+' or no sign keeps it. */
  lemma SignedMagnitude(sign: string, u: string, m: nat)
    requires sign == "" || sign == "+" || sign == "-"
    requires |u| > 0 && IsDecimalDigit(u[0])
    requires ParseMagnitude(u) == Some(m)
    ensures ParseSigned(sign + u) == Some(if sign == "-" then -(m as int) else m)
  {
    var t := sign + u;
    if sign == "" {
      assert ParseSigned(t) == Some(m) by {
        assert t == u;
      }
    } else {
      assert ParseSigned(t) == Some(if sign == "-" then -(m as int) else m) by {
        assert |t| > 0 && t[0] == sign[0] && t[1..] == u;
      }
    }
  }

  /** Leading white space does not change what `parseInt` reads. */
  lemma ParseIntSkipsSpace(space: string, t: string)
    requires AllWhiteSpace(space)
    requires t == [] || !IsWhiteSpace(t[0])
    ensures ParseInt(space + t) == ParseSigned(t)
  {
    LeadingSpaceOfPadded(space, t);
    assert (space + t)[|space|..] == t;
  }

  /**
   * `parseInt` reads back an integer written in decimal, past any leading
   * white space and up to the first character that is not a digit, except
   * that "0" followed by "x" or "X" switches to hexadecimal.
   */
  lemma ParseIntOfNumeral(space: string, n: int, rest: string)
    requires AllWhiteSpace(space)
    requires rest == [] || (!IsDecimalDigit(rest[0]) && !(n == 0 && (rest[0] == 'x' || rest[0] == 'X')))
    ensures ParseInt(space + IntToString(n) + rest) == Some(n)
  {
    var t := IntToString(n) + rest;
    assert space + IntToString(n) + rest == space + t;
    ParseIntSkipsSpace(space, t);
    SignedOfNumeral(n, rest);
  }

  /**
   * `parseInt` reads any run of decimal digits, after white space and an
   * optional sign, as the signed number `value` it denotes: "+5" is 5 and
   * "007" is 7.
   */
  lemma ParseIntOfDigits(space: string, sign: string, z: string, rest: string, value: nat)
    requires AllWhiteSpace(space)
    requires sign == "" || sign == "+" || sign == "-"
    requires z != [] && DigitRun(z, false) == z
    requires rest == [] || !IsDecimalDigit(rest[0])
    requires !(z == "0" && rest != [] && (rest[0] == 'x' || rest[0] == 'X'))
    requires value == DigitsValue(z, false)
    ensures ParseInt(space + sign + z + rest) == Some(if sign == "-" then -(value as int) else value)
  {
    var u := z + rest;
    assert ParseMagnitude(u) == Some(value) && |u| > 0 && IsDecimalDigit(u[0]) by {
      MagnitudeOfDigits(z, rest);
      assert u[0] == z[0];
    }
    assert ParseInt(space + sign + u) == Some(if sign == "-" then -(value as int) else value) by {
      ParseIntOfMagnitude(space, sign, u, value);
    }
    AppendAssociates(space + sign, z, rest);
  }

  /**
   * `parseInt` with no radix reads "0x" or "0X" followed by hexadecimal
   * digits in radix 16, as the number `value` they denote, after white space
   * and an optional sign.
   */
  lemma ParseIntOfHex(space: string, sign: string, x: char, z: string, rest: string, value: nat)
    requires AllWhiteSpace(space)
    requires sign == "" || sign == "+" || sign == "-"
    requires x == 'x' || x == 'X'
    requires z != [] && DigitRun(z, true) == z
    requires rest == [] || !IsDigit(rest[0], true)
    requires value == DigitsValue(z, true)
    ensures ParseInt(space + sign + ['0', x] + z + rest) == Some(if sign == "-" then -(value as int) else value)
  {
    var u := ['0', x] + z + rest;
    assert ParseMagnitude(u) == Some(value) && |u| > 0 && IsDecimalDigit(u[0]) by {
      MagnitudeOfHexDigits(x, z, rest, value);
    }
    assert ParseInt(space + sign + u) == Some(if sign == "-" then -(value as int) else value) by {
      ParseIntOfMagnitude(space, sign, u, value);
    }
    AppendAssociates(space + sign, ['0', x], z);
    AppendAssociates(space + sign, ['0', x] + z, rest);
  }

  /** After white space and an optional sign, `parseInt` gives the magnitude read there, negated after '-'. */
  lemma ParseIntOfMagnitude(space: string, sign: string, u: string, m: nat)
    requires AllWhiteSpace(space)
    requires sign == "" || sign == "+" || sign == "-"
    requires |u| > 0 && IsDecimalDigit(u[0])
    requires ParseMagnitude(u) == Some(m)
    ensures ParseInt(space + sign + u) == Some(if sign == "-" then -(m as int) else m)
  {
    SkipSpaceBeforeSign(space, sign, u);
    SignedMagnitude(sign, u, m);
  }

  lemma AppendAssociates(a: string, b: string, c: string)
    ensures a + b + c == a + (b + c)
  {
  }

  /** White space before an optional sign and a leading digit is skipped. */
  lemma SkipSpaceBeforeSign(space: string, sign: string, u: string)
    requires AllWhiteSpace(space)
    requires sign == "" || sign == "+" || sign == "-"
    requires |u| > 0 && IsDecimalDigit(u[0])
    ensures ParseInt(space + sign + u) == ParseSigned(sign + u)
  {
    var t := sign + u;
    assert space + sign + u == space + t;
    assert t[0] == (if sign == "" then u[0] else sign[0]);
    ParseIntSkipsSpace(space, t);
  }

  /** "+5" is read as 5. */
  lemma SampleSignedParse()
    ensures ParseInt("+5") == Some(5)
  {
    ParseIntOfDigits("", "+", "5", "", 5);
    assert "" + "+" + "5" + "" == "+5";
  }

  /** " 007" is read as 7: leading zeros do not switch the radix. */
  lemma SampleZeroPaddedParse()
    ensures ParseInt(" 007") == Some(7)
  {
    assert "007"[..2] == "00" && "00"[..1] == "0";
    assert DigitsValue("0", false) == 0;
    assert DigitsValue("00", false) == 0;
    assert DigitsValue("007", false) == 7;
    ParseIntOfDigits(" ", "", "007", "", 7);
    assert " " + "" + "007" + "" == " 007";
  }

  /** "0x1A" is read as 26. */
  lemma SampleHexParse()
    ensures ParseInt("0x1A") == Some(26)
  {
    assert "1A"[..1] == "1";
    assert DigitsValue("1", true) == 1;
    assert DigitsValue("1A", true) == 26;
    ParseIntOfHex("", "", 'x', "1A", "", 26);
    assert "" + "" + ['0', 'x'] + "1A" + "" == "0x1A";
  }

  /** Without a digit after the optional white space and sign, `parseInt` gives NaN. */
  lemma ParseIntWithoutDigits(space: string, sign: string, rest: string)
    requires AllWhiteSpace(space)
    requires sign == "" || sign == "+" || sign == "-"
    requires rest == [] || (!IsDecimalDigit(rest[0]) && (sign != "" || (!IsWhiteSpace(rest[0]) && rest[0] != '+' && rest[0] != '-')))
    ensures ParseInt(space + sign + rest) == None
  {
    var t := sign + rest;
    assert space + sign + rest == space + t;
    ParseIntSkipsSpace(space, t);
    if sign != "" {
      assert t[1..] == rest;
    }
  }
}
