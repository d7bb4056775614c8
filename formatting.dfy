/**
 * The separator decision of whmcs_parse_price_to_float: a raw price string is
 * trimmed, stripped to the decimal digits of any script, '.', ',' and '-', and
 * the separators are then
 * read as a decimal point or as thousands separators. The model returns the
 * numeric string the function would cast to float, or None where it returns null.
 */
module Formatting {
  import opened Strings

  /**
   * The first code point of each run of ten decimal digits outside ASCII
   * (Unicode 15.0, general category Nd), in ascending order.
   */
  const OtherDigitZeros: seq<int> :=
    [0x660, 0x6F0, 0x7C0, 0x966, 0x9E6, 0xA66, 0xAE6, 0xB66, 0xBE6, 0xC66] +
    [0xCE6, 0xD66, 0xDE6, 0xE50, 0xED0, 0xF20, 0x1040, 0x1090, 0x17E0, 0x1810] +
    [0x1946, 0x19D0, 0x1A80, 0x1A90, 0x1B50, 0x1BB0, 0x1C40, 0x1C50, 0xA620, 0xA8D0] +
    [0xA900, 0xA9D0, 0xA9F0, 0xAA50, 0xABF0, 0xFF10, 0x104A0, 0x10D30, 0x11066, 0x110F0] +
    [0x11136, 0x111D0, 0x112F0, 0x11450, 0x114D0, 0x11650, 0x116C0, 0x11730, 0x118E0, 0x11950] +
    [0x11C50, 0x11D50, 0x11DA0, 0x11F50, 0x16A60, 0x16AC0, 0x16B50, 0x1D7CE, 0x1D7D8, 0x1D7E2] +
    [0x1D7EC, 0x1D7F6, 0x1E140, 0x1E2F0, 0x1E4F0, 0x1E950, 0x1FBF0]

  /** Whether `c` lies in one of the ascending runs of ten that start at `zeros`; the search stops at the first run above `c`. */
  predicate InDigitRuns(c: char, zeros: seq<int>)
    decreases |zeros|
  {
    zeros != [] && zeros[0] <= c as int && (c as int < zeros[0] + 10 || InDigitRuns(c, zeros[1..]))
  }

  /**
   * `\d` under the `/u` modifier, with which PCRE matches by Unicode
   * property: a decimal digit of any script. No run outside ASCII starts
   * below U+0660.
   */
  predicate IsUnicodeDigit(c: char) {
    IsDigit(c) || (0x660 <= c as int && InDigitRuns(c, OtherDigitZeros))
  }

  /** The Arabic-Indic digits U+0660 to U+0669 form the first run. */
  lemma ArabicIndicDigit(c: char)
    requires 0x660 <= c as int < 0x66A
    ensures IsUnicodeDigit(c) && !IsDigit(c)
  {
    assert OtherDigitZeros[0] == 0x660;
  }

  predicate IsPriceChar(c: char) {
    IsUnicodeDigit(c) || c == '.' || c == ',' || c == '-'
  }

  predicate IsSeparator(c: char) {
    c == '.' || c == ','
  }

  /** preg_replace('/[^\d\.,\-]/u', '', $s). */
  function KeepPriceChars(s: string): (r: string)
    ensures forall i :: 0 <= i < |r| ==> IsPriceChar(r[i])
  {
    if s == [] then []
    else (if IsPriceChar(s[0]) then [s[0]] else []) + KeepPriceChars(s[1..])
  }

  /** strrpos(): index of the last `c`, or -1 when there is none. */
  function LastIndexOf(s: string, c: char): (k: int)
    ensures -1 <= k < |s|
    ensures k >= 0 ==> s[k] == c
    ensures forall i :: k < i < |s| ==> s[i] != c
  {
    if s == [] then -1
    else
      var k := LastIndexOf(s[1..], c);
      if k >= 0 then k + 1 else if s[0] == c then 0 else -1
  }

  /** preg_match('/^\d{2}$/', $last): exactly two ASCII digits. */
  predicate IsTwoDigits(s: string) {
    |s| == 2 && AllDigits(s)
  }

  /**
   * PHP's is_numeric() on the strings that can reach it here, which hold only
   * digits, '.' and '-': an optional sign, then digits with at most one '.',
   * and at least one digit.
   */
  predicate IsNumeric(s: string) {
    var t := if s != [] && (s[0] == '-' || s[0] == '+') then s[1..] else s;
    var i := IndexOf(t, '.');
    AllDigits(t[..i]) && (i == |t| || AllDigits(t[i + 1..])) && DigitsOf(t) != []
  }

  /** The separator rules, applied to the filtered, non-empty string `s`. */
  function Normalise(s: string): (r: string)
    ensures ',' !in r
  {
    var hasDot := '.' in s;
    var hasComma := ',' in s;
    if hasDot && hasComma then
      // the separator that occurs last is the decimal point
      var decimal := if LastIndexOf(s, ',') > LastIndexOf(s, '.') then ',' else '.';
      var thousands := if decimal == ',' then '.' else ',';
      ReplaceChar(RemoveChar(s, thousands), decimal, '.')
    else if hasComma then
      if IsTwoDigits(Last(Split(s, ','))) then ReplaceChar(RemoveChar(s, '.'), ',', '.')
      else RemoveChar(s, ',')
    else if hasDot then
      if IsTwoDigits(Last(Split(s, '.'))) then s
      else RemoveChar(s, '.')
    else s
  }

  /** The checks after filtering: nothing left, a lone sign, or the separator rules. */
  function ParseFilteredPrice(s: string): (r: Option<string>)
    ensures r.Some? ==> IsNumeric(r.value) && ',' !in r.value
    ensures s in {"", "-"} ==> r == None
  {
    if s == [] || s == "-" then None
    else
      var n := Normalise(s);
      if IsNumeric(n) then Some(n) else None
  }

  /** whmcs_parse_price_to_float on a string, up to the final (float) cast. */
  function ParsePrice(raw: string): (r: Option<string>)
    ensures r.Some? ==> IsNumeric(r.value) && ',' !in r.value
    ensures Trim(raw) == [] ==> r == None
  {
    var t := Trim(raw);
    if t == [] then None else ParseFilteredPrice(KeepPriceChars(t))
  }

  // ---------------------------------------------------------------------------
  // Helper facts about the character operations
  // ---------------------------------------------------------------------------

  lemma ReplaceCharAbsent(s: string, c: char, d: char)
    requires c !in s || c == d
    ensures ReplaceChar(s, c, d) == s
  {
  }

  /** Removing one character keeps every other one. */
  lemma {:induction false} RemoveCharKeeps(s: string, c: char, x: char)
    requires x != c
    ensures x in RemoveChar(s, c) <==> x in s
  {
    if s != [] {
      RemoveCharKeeps(s[1..], c, x);
      var head := if s[0] == c then [] else [s[0]];
      assert RemoveChar(s, c) == head + RemoveChar(s[1..], c);
      assert s == [s[0]] + s[1..];
    }
  }

  lemma ReplaceCharShows(s: string, c: char, d: char)
    requires c in s
    ensures d in ReplaceChar(s, c, d)
  {
    var i :| 0 <= i < |s| && s[i] == c;
    assert ReplaceChar(s, c, d)[i] == d;
  }

  lemma ReplaceCharOthers(s: string, c: char, d: char, x: char)
    requires x != c && x != d
    ensures x in ReplaceChar(s, c, d) <==> x in s
  {
    var r := ReplaceChar(s, c, d);
    if x in s {
      var i :| 0 <= i < |s| && s[i] == x;
      assert r[i] == x;
    }
    if x in r {
      var i :| 0 <= i < |r| && r[i] == x;
      assert s[i] == x;
    }
  }

  /** The only '.' of a numeric string is the first one after the sign. */
  lemma NumericDotUnique(s: string, j: int)
    requires IsNumeric(s) && 0 <= j < |s| && s[j] == '.'
    ensures var off := if s[0] == '-' || s[0] == '+' then 1 else 0;
      j == off + IndexOf(s[off..], '.')
  {
    var off := if s[0] == '-' || s[0] == '+' then 1 else 0;
    var t := s[off..];
    var i := IndexOf(t, '.');
    assert j >= off;
    assert t[j - off] == '.';
    assert forall m :: 0 <= m < i ==> t[m] == t[..i][m];
    assert forall m :: i < m < |t| ==> t[m] == t[i + 1..][m - i - 1];
  }

  /** A numeric string has at most one '.'. */
  lemma NumericOneDot(p: string, q: string)
    requires IsNumeric(p + "." + q)
    ensures '.' !in p && '.' !in q
  {
    var s := p + "." + q;
    assert s[|p|] == '.';
    NumericDotUnique(s, |p|);
    forall i | 0 <= i < |s| && s[i] == '.'
      ensures i == |p|
    {
      NumericDotUnique(s, i);
    }
    assert forall i :: 0 <= i < |p| ==> s[i] == p[i];
    assert forall i :: 0 <= i < |q| ==> s[|p| + 1 + i] == q[i];
  }

  function StripSeparators(s: string): string {
    RemoveChar(RemoveChar(s, '.'), ',')
  }

  function LastSeparator(s: string): int {
    var d := LastIndexOf(s, '.');
    var c := LastIndexOf(s, ',');
    if d > c then d else c
  }

  /**
   * When `dec` at index k is the last separator of `s`, removing the other
   * separator and turning `dec` into '.' leaves a separator-free integer part,
   * the point, and the text after k.
   */
  lemma DecimalShape(s: string, k: int, th: char, dec: char)
    requires (th == '.' && dec == ',') || (th == ',' && dec == '.')
    requires 0 <= k < |s| && s[k] == dec
    requires forall i :: k < i < |s| ==> s[i] != th && s[i] != dec
    requires IsNumeric(ReplaceChar(RemoveChar(s, th), dec, '.'))
    ensures ReplaceChar(RemoveChar(s, th), dec, '.') == StripSeparators(s[..k]) + "." + s[k + 1..]
  {
    var a, b := s[..k], s[k + 1..];
    DecimalTail(s, k, th, dec);
    DecimalParts(a, b, th, dec);
    var m := RemoveChar(a, th);
    DecimalHeadClean(m, b, dec);
    StripWhenNoDecimal(a, th, dec);
  }

  /** The string around its last decimal separator. */
  lemma DecimalTail(s: string, k: int, th: char, dec: char)
    requires 0 <= k < |s| && s[k] == dec
    requires forall i :: k < i < |s| ==> s[i] != th && s[i] != dec
    ensures th !in s[k + 1..] && dec !in s[k + 1..]
    ensures s == s[..k] + [dec] + s[k + 1..]
  {
    var b := s[k + 1..];
    assert forall i :: 0 <= i < |b| ==> b[i] == s[k + 1 + i];
  }

  /** A numeric string has one dot, so the part before the decimal point holds no decimal separator. */
  lemma DecimalHeadClean(m: string, b: string, dec: char)
    requires IsNumeric(ReplaceChar(m, dec, '.') + "." + b)
    ensures dec !in m && ReplaceChar(m, dec, '.') == m
  {
    NumericOneDot(ReplaceChar(m, dec, '.'), b);
    if dec in m {
      ReplaceCharShows(m, dec, '.');
    }
    ReplaceCharAbsent(m, dec, '.');
  }

  /** With the thousands separator gone and no decimal one left, both separators are gone. */
  lemma StripWhenNoDecimal(a: string, th: char, dec: char)
    requires (th == '.' && dec == ',') || (th == ',' && dec == '.')
    requires dec !in RemoveChar(a, th)
    ensures RemoveChar(a, th) == StripSeparators(a)
  {
    if th == ',' {
      RemoveCharKeeps(a, ',', '.');
      assert RemoveChar(a, '.') == a;
    }
  }

  /** Removing the thousands separator and turning the decimal one into a dot, around that decimal one. */
  lemma DecimalParts(a: string, b: string, th: char, dec: char)
    requires th != dec && th !in b && dec !in b
    ensures ReplaceChar(RemoveChar(a + [dec] + b, th), dec, '.') == ReplaceChar(RemoveChar(a, th), dec, '.') + "." + b
  {
    RemoveCharAppend(a + [dec], b, th);
    RemoveCharAppend(a, [dec], th);
    assert RemoveChar([dec], th) == [dec];
    var m := RemoveChar(a, th);
    assert RemoveChar(a + [dec] + b, th) == m + [dec] + b;
    ReplaceCharAppend(m + [dec], b, dec, '.');
    ReplaceCharAppend(m, [dec], dec, '.');
    ReplaceCharAbsent(b, dec, '.');
    assert ReplaceChar([dec], dec, '.') == ".";
  }

  /** The shape of a normalised string, as NormaliseShape states it. */
  predicate ShapedLike(r: string, s: string) {
    var k := LastSeparator(s);
    ('.' !in r ==> r == StripSeparators(s)) &&
    ('.' in r ==> 0 <= k && r == StripSeparators(s[..k]) + "." + s[k + 1..])
  }

  lemma ShapeAt(r: string, s: string, k: int)
    requires 0 <= k < |s| && LastSeparator(s) == k
    requires r == StripSeparators(s[..k]) + "." + s[k + 1..]
    ensures ShapedLike(r, s)
  {
    assert r[|StripSeparators(s[..k])|] == '.';
  }

  lemma ShapeNoPoint(r: string, s: string)
    requires '.' !in r && r == StripSeparators(s)
    ensures ShapedLike(r, s)
  {
  }

  lemma ShapeBoth(s: string)
    requires '.' in s && ',' in s && IsNumeric(Normalise(s))
    ensures ShapedLike(Normalise(s), s)
  {
    var d := LastIndexOf(s, '.');
    var c := LastIndexOf(s, ',');
    if c > d {
      assert Normalise(s) == ReplaceChar(RemoveChar(s, '.'), ',', '.');
      DecimalShape(s, c, '.', ',');
      ShapeAt(Normalise(s), s, c);
    } else {
      assert Normalise(s) == ReplaceChar(RemoveChar(s, ','), '.', '.');
      DecimalShape(s, d, ',', '.');
      ShapeAt(Normalise(s), s, d);
    }
  }

  lemma ShapeCommaOnly(s: string)
    requires ',' in s && '.' !in s && IsNumeric(Normalise(s))
    ensures ShapedLike(Normalise(s), s)
  {
    var c := LastIndexOf(s, ',');
    assert RemoveChar(s, '.') == s;
    if IsTwoDigits(Last(Split(s, ','))) {
      assert Normalise(s) == ReplaceChar(s, ',', '.');
      DecimalShape(s, c, '.', ',');
      ShapeAt(Normalise(s), s, c);
    } else {
      assert Normalise(s) == RemoveChar(s, ',');
      ShapeNoPoint(Normalise(s), s);
    }
  }

  lemma ShapeDotOnly(s: string)
    requires '.' in s && ',' !in s && IsNumeric(Normalise(s))
    ensures ShapedLike(Normalise(s), s)
  {
    var d := LastIndexOf(s, '.');
    assert RemoveChar(s, ',') == s;
    if IsTwoDigits(Last(Split(s, '.'))) {
      assert Normalise(s) == s;
      ReplaceCharAbsent(s, '.', '.');
      DecimalShape(s, d, ',', '.');
      ShapeAt(Normalise(s), s, d);
    } else {
      assert Normalise(s) == RemoveChar(s, '.');
      RemoveCharKeeps(s, '.', ',');
      ShapeNoPoint(Normalise(s), s);
    }
  }

  /**
   * The decimal point of the normalised string, when it has one, stands where
   * the last separator of `s` stood: everything before it loses its separators
   * and everything after it is kept. Without a decimal point, every separator
   * is dropped.
   */
  lemma NormaliseShape(s: string)
    requires IsNumeric(Normalise(s))
    ensures ShapedLike(Normalise(s), s)
  {
    if '.' in s && ',' in s {
      ShapeBoth(s);
    } else if ',' in s {
      ShapeCommaOnly(s);
    } else if '.' in s {
      ShapeDotOnly(s);
    }
  }

  // ---------------------------------------------------------------------------
  // Which separator is the decimal point
  // ---------------------------------------------------------------------------

  lemma {:induction false} SplitWithoutSeparator(s: string, sep: char)
    requires sep !in s
    ensures Split(s, sep) == [s]
  {
    if s != [] {
      SplitWithoutSeparator(s[1..], sep);
      assert [s[0]] + s[1..] == s;
    }
  }

  lemma {:induction false} SplitWithSeparator(s: string, sep: char)
    requires sep in s
    ensures |Split(s, sep)| >= 2
  {
    if s[0] != sep {
      SplitWithSeparator(s[1..], sep);
    }
  }

  /** end(explode($sep, $s)) is the text after the last separator. */
  lemma {:induction false} LastOfSplit(s: string, sep: char)
    ensures Last(Split(s, sep)) == s[LastIndexOf(s, sep) + 1..]
  {
    if sep !in s {
      LastOfSplitWhole(s, sep);
    } else {
      LastOfSplit(s[1..], sep);
      if s[0] == sep {
        LastOfSplitAtSeparator(s, sep);
      } else {
        assert sep in s[1..] by {
          var i :| 0 <= i < |s| && s[i] == sep;
          assert s[1..][i - 1] == sep;
        }
        LastOfSplitInner(s, sep);
      }
    }
  }

  /** Without a separator the only piece is the whole string. */
  lemma LastOfSplitWhole(s: string, sep: char)
    requires sep !in s
    ensures Last(Split(s, sep)) == s[LastIndexOf(s, sep) + 1..]
  {
    SplitWithoutSeparator(s, sep);
    assert LastIndexOf(s, sep) == -1;
    assert s[0..] == s;
  }

  /** A leading separator adds an empty first piece. */
  lemma LastOfSplitAtSeparator(s: string, sep: char)
    requires s != [] && s[0] == sep
    requires Last(Split(s[1..], sep)) == s[1..][LastIndexOf(s[1..], sep) + 1..]
    ensures Last(Split(s, sep)) == s[LastIndexOf(s, sep) + 1..]
  {
    SplitAtSeparatorLast(s, sep);
    TailAfterLastSeparator(s, sep);
  }

  lemma SplitAtSeparatorLast(s: string, sep: char)
    requires s != [] && s[0] == sep
    ensures Last(Split(s, sep)) == Last(Split(s[1..], sep))
  {
    var rest := Split(s[1..], sep);
    assert Split(s, sep) == [[]] + rest;
  }

  /** After a leading separator, the text after the last one is the same in s and s[1..]. */
  lemma TailAfterLastSeparator(s: string, sep: char)
    requires s != [] && s[0] == sep
    ensures s[LastIndexOf(s, sep) + 1..] == s[1..][LastIndexOf(s[1..], sep) + 1..]
  {
    LastIndexOfLeading(s, sep);
    DropTwice(s, 1, LastIndexOf(s[1..], sep) + 1);
  }

  /** LastIndexOf's own step at a leading separator. */
  lemma LastIndexOfLeading(s: string, sep: char)
    requires s != [] && s[0] == sep
    ensures LastIndexOf(s, sep) == LastIndexOf(s[1..], sep) + 1
  {
  }

  lemma DropTwice(s: string, a: nat, b: nat)
    requires a + b <= |s|
    ensures s[a..][b..] == s[a + b..]
  {
  }

  /** A leading other character joins the first piece, which is not the last. */
  lemma LastOfSplitInner(s: string, sep: char)
    requires s != [] && s[0] != sep && sep in s[1..]
    requires Last(Split(s[1..], sep)) == s[1..][LastIndexOf(s[1..], sep) + 1..]
    ensures Last(Split(s, sep)) == s[LastIndexOf(s, sep) + 1..]
  {
    var rest := Split(s[1..], sep);
    SplitWithSeparator(s[1..], sep);
    var parts := [[s[0]] + rest[0]] + rest[1..];
    assert Split(s, sep) == parts;
    assert Last(parts) == Last(rest);
    var k := LastIndexOf(s[1..], sep);
    assert k >= 0;
    assert s[1..][k + 1..] == s[k + 2..];
  }

  /**
   * With a comma and no dot, the comma is the decimal point exactly when two
   * digits follow the last comma; otherwise every comma is dropped.
   */
  lemma CommaOnlyDecision(s: string)
    requires ',' in s && '.' !in s
    ensures var after := s[LastIndexOf(s, ',') + 1..];
      Normalise(s) == if IsTwoDigits(after) then ReplaceChar(s, ',', '.') else RemoveChar(s, ',')
  {
    LastOfSplit(s, ',');
  }

  /**
   * With a dot and no comma, the dot is the decimal point exactly when two
   * digits follow the last dot; otherwise every dot is dropped.
   */
  lemma DotOnlyDecision(s: string)
    requires '.' in s && ',' !in s
    ensures var after := s[LastIndexOf(s, '.') + 1..];
      Normalise(s) == if IsTwoDigits(after) then s else RemoveChar(s, '.')
  {
    LastOfSplit(s, '.');
  }

  // ---------------------------------------------------------------------------
  // What parsing preserves
  // ---------------------------------------------------------------------------

  lemma {:induction false} DigitsOfKeepPriceChars(s: string)
    ensures DigitsOf(KeepPriceChars(s)) == DigitsOf(s)
  {
    if s != [] {
      DigitsOfKeepPriceChars(s[1..]);
      var head := if IsPriceChar(s[0]) then [s[0]] else [];
      DigitsOfAppend(head, KeepPriceChars(s[1..]));
      assert DigitsOf(head) == (if IsDigit(s[0]) then [s[0]] else []);
    }
  }

  lemma DigitsOfNormalise(s: string)
    ensures DigitsOf(Normalise(s)) == DigitsOf(s)
  {
    DigitsOfRemoveChar(s, '.');
    DigitsOfRemoveChar(s, ',');
    DigitsOfReplaceChar(RemoveChar(s, '.'), ',', '.');
    DigitsOfReplaceChar(RemoveChar(s, ','), '.', '.');
  }

  /**
   * A parsed price keeps every digit of the raw string in order, and its
   * decimal point, if any, stands where the last separator stood.
   */
  lemma ParsePriceMeaning(raw: string)
    requires ParsePrice(raw).Some?
    ensures var r := ParsePrice(raw).value;
      DigitsOf(r) == DigitsOf(raw) && ShapedLike(r, KeepPriceChars(Trim(raw)))
  {
    var s := KeepPriceChars(Trim(raw));
    DigitsOfTrim(raw);
    DigitsOfKeepPriceChars(Trim(raw));
    DigitsOfNormalise(s);
    NormaliseShape(s);
  }

  /** With both separators, the result always has a decimal point. */
  lemma BothSeparatorsGiveDecimal(s: string)
    requires '.' in s && ',' in s
    ensures '.' in Normalise(s)
  {
    var d, c := LastIndexOf(s, '.'), LastIndexOf(s, ',');
    if c > d {
      assert ',' in RemoveChar(s, '.') by { RemoveCharKeeps(s, '.', ','); }
      ReplaceCharShows(RemoveChar(s, '.'), ',', '.');
    } else {
      RemoveCharKeeps(s, ',', '.');
      ReplaceCharShows(RemoveChar(s, ','), '.', '.');
    }
  }

  // ---------------------------------------------------------------------------
  // Only the price characters count
  // ---------------------------------------------------------------------------

  lemma {:induction false} KeepPriceCharsAppend(a: string, b: string)
    ensures KeepPriceChars(a + b) == KeepPriceChars(a) + KeepPriceChars(b)
  {
    if a == [] {
      assert a + b == b;
    } else {
      assert (a + b)[1..] == a[1..] + b;
      KeepPriceCharsAppend(a[1..], b);
    }
  }

  lemma {:induction false} KeepPriceCharsNone(s: string)
    requires forall i :: 0 <= i < |s| ==> !IsPriceChar(s[i])
    ensures KeepPriceChars(s) == []
  {
    if s != [] {
      KeepPriceCharsNone(s[1..]);
    }
  }

  lemma {:induction false} KeepPriceCharsAll(s: string)
    requires forall i :: 0 <= i < |s| ==> IsPriceChar(s[i])
    ensures KeepPriceChars(s) == s
  {
    if s != [] {
      KeepPriceCharsAll(s[1..]);
      assert [s[0]] + s[1..] == s;
    }
  }

  /** Trimming never changes the filtered string: white space is not a price character. */
  lemma KeepPriceCharsTrim(raw: string)
    ensures KeepPriceChars(Trim(raw)) == KeepPriceChars(raw)
  {
    var t := Trim(raw);
    var a, b := TrimSplits(raw);
    KeepPriceCharsAppend(a + t, b);
    KeepPriceCharsAppend(a, t);
    KeepPriceCharsNone(a);
    KeepPriceCharsNone(b);
    calc {
      KeepPriceChars(raw);
      KeepPriceChars(a + t) + KeepPriceChars(b);
      KeepPriceChars(a) + KeepPriceChars(t) + KeepPriceChars(b);
      [] + KeepPriceChars(t) + [];
      { assert [] + KeepPriceChars(t) + [] == KeepPriceChars(t); }
      KeepPriceChars(t);
    }
  }

  /** The result depends only on the price characters of the raw string. */
  lemma ParsePriceFilters(raw: string)
    ensures ParsePrice(raw) == ParsePrice(KeepPriceChars(raw))
  {
    var k := KeepPriceChars(raw);
    KeepPriceCharsTrim(raw);
    assert forall i :: 0 <= i < |k| ==> !IsTrimSpace(k[i]) by {
      forall i | 0 <= i < |k|
        ensures !IsTrimSpace(k[i])
      {
        assert IsPriceChar(k[i]);
      }
    }
    TrimShape(k);
    KeepPriceCharsAll(k);
    if Trim(raw) == [] {
      assert k == [];
    } else {
      assert ParsePrice(raw) == ParseFilteredPrice(k);
    }
  }

  /** A currency label after the amount ("Kr", " kr") is ignored. */
  lemma ParsePriceIgnoresLabel(x: string, tail: string)
    requires forall i :: 0 <= i < |tail| ==> !IsPriceChar(tail[i])
    ensures ParsePrice(x + tail) == ParsePrice(x)
  {
    ParsePriceFilters(x + tail);
    ParsePriceFilters(x);
    KeepPriceCharsAppend(x, tail);
    KeepPriceCharsNone(tail);
    assert KeepPriceChars(x) + [] == KeepPriceChars(x);
  }

  /** The filter keeps every price character of its input. */
  lemma {:induction false} KeepPriceCharsHas(s: string, x: char)
    requires IsPriceChar(x) && x in s
    ensures x in KeepPriceChars(s)
  {
    if s[0] != x {
      assert x in s[1..];
      KeepPriceCharsHas(s[1..], x);
    }
  }

  /** A character of a numeric string is an ASCII digit, the decimal point or the leading sign. */
  lemma NumericChars(r: string, x: char)
    requires IsNumeric(r) && x in r
    ensures IsDigit(x) || x == '.' || x == '-' || x == '+'
  {
    var j :| 0 <= j < |r| && r[j] == x;
    var off := if r[0] == '-' || r[0] == '+' then 1 else 0;
    if j >= off {
      var t := r[off..];
      var i := IndexOf(t, '.');
      assert t[j - off] == x;
      if j - off < i {
        assert t[..i][j - off] == x;
      } else if j - off > i {
        assert t[i + 1..][j - off - i - 1] == x;
      }
    }
  }

  /** The separator rules keep every character other than the two separators. */
  lemma NormaliseKeeps(s: string, x: char)
    requires x != '.' && x != ','
    ensures x in Normalise(s) <==> x in s
  {
    RemoveCharKeeps(s, '.', x);
    RemoveCharKeeps(s, ',', x);
    ReplaceCharOthers(RemoveChar(s, '.'), ',', '.', x);
    ReplaceCharOthers(RemoveChar(s, ','), '.', '.', x);
  }

  /**
   * A decimal digit outside ASCII passes the filter, but is_numeric() takes
   * only ASCII digits, so any such digit in the input gives null.
   */
  lemma OtherDigitRejected(raw: string, x: char)
    requires x in raw && IsUnicodeDigit(x) && !IsDigit(x)
    ensures x in KeepPriceChars(raw)
    ensures ParsePrice(raw) == None
  {
    KeepPriceCharsHas(raw, x);
    KeepPriceCharsTrim(raw);
    var s := KeepPriceChars(Trim(raw));
    if Trim(raw) != [] && s != [] && s != "-" {
      NormaliseKeeps(s, x);
      if IsNumeric(Normalise(s)) {
        NumericChars(Normalise(s), x);
        assert false;
      }
    }
  }

  /** "1٠" (with the Arabic-Indic zero) keeps both digits through the filter and gives null. */
  lemma ParseArabicIndicRejected()
    ensures KeepPriceChars("1\U{0660}") == "1\U{0660}"
    ensures ParsePrice("1\U{0660}") == None
  {
    ArabicIndicDigit('\U{0660}');
    OtherDigitRejected("1\U{0660}", '\U{0660}');
    KeepPriceCharsAll("1\U{0660}");
  }

  // ---------------------------------------------------------------------------
  // The documented formats, for all digit strings
  // ---------------------------------------------------------------------------

  /** An already filtered string goes straight to the separator rules. */
  lemma ParseFiltered(s: string)
    requires s != [] && s != "-"
    requires forall i :: 0 <= i < |s| ==> IsPriceChar(s[i])
    ensures ParsePrice(s) == if IsNumeric(Normalise(s)) then Some(Normalise(s)) else None
  {
    assert Trim(s) == s;
    KeepPriceCharsAll(s);
    assert ParsePrice(s) == ParseFilteredPrice(s);
  }

  lemma LastIndexOfAt(x: string, c: char, k: int)
    requires 0 <= k < |x| && x[k] == c
    requires forall i :: k < i < |x| ==> x[i] != c
    ensures LastIndexOf(x, c) == k
  {
  }

  lemma NumericInteger(a: string)
    requires a != [] && AllDigits(a)
    ensures IsNumeric(a)
  {
    DigitsOfAll(a);
    assert IndexOf(a, '.') == |a|;
  }

  lemma NumericDecimal(a: string, b: string)
    requires a != [] && AllDigits(a) && AllDigits(b)
    ensures IsNumeric(a + "." + b)
  {
    var s := a + "." + b;
    IndexOfAfter(a, b, '.');
    assert s[..|a|] == a && s[|a| + 1..] == b;
    assert s == a + ("." + b);
    DigitsOfAppend(a, "." + b);
    DigitsOfAll(a);
  }

  /** The text after the last `c`, when `c` stands between `a` and `b`, is `b`. */
  lemma LastPart(a: string, b: string, c: char)
    requires c !in b
    ensures Last(Split(a + [c] + b, c)) == b
  {
    var s := a + [c] + b;
    LastAt(a, c, b);
    LastOfSplit(s, c);
    assert s[|a| + 1..] == b;
  }

  lemma NormaliseDecimalComma(a: string, b: string)
    requires AllDigits(a) && AllDigits(b) && |b| == 2
    ensures Normalise(a + "," + b) == a + "." + b
  {
    NoSeparators(a);
    NoSeparators(b);
    var s := a + [','] + b;
    assert s[|a|] == ',' && '.' !in s;
    LastPart(a, b, ',');
    assert RemoveChar(s, '.') == s;
    ReplaceCharMid(a, b, ',', '.');
  }

  /** A single separator of either kind followed by other than two digits is dropped. */
  lemma NormaliseThousands(a: string, b: string, x: char)
    requires AllDigits(a) && AllDigits(b) && |b| != 2 && (x == ',' || x == '.')
    ensures Normalise(a + [x] + b) == a + b
  {
    NoSeparators(a);
    NoSeparators(b);
    var s := a + [x] + b;
    assert s[|a|] == x && (if x == ',' then '.' else ',') !in s;
    LastPart(a, b, x);
    NormaliseOneSeparator(s, x);
    RemoveCharMid(a, x, b, x);
  }

  /** With one kind of separator only, and not two digits after its last occurrence, it is dropped. */
  lemma NormaliseOneSeparator(s: string, x: char)
    requires (x == ',' && ',' in s && '.' !in s) || (x == '.' && '.' in s && ',' !in s)
    requires !IsTwoDigits(Last(Split(s, x)))
    ensures Normalise(s) == RemoveChar(s, x)
  {
  }

  lemma NormaliseDecimalDot(a: string, b: string)
    requires AllDigits(a) && AllDigits(b) && |b| == 2
    ensures Normalise(a + "." + b) == a + "." + b
  {
    NoSeparators(a);
    NoSeparators(b);
    var s := a + ['.'] + b;
    assert s[|a|] == '.' && ',' !in s;
    LastPart(a, b, '.');
  }

  lemma RemoveCharMid(a: string, x: char, b: string, c: char)
    requires c !in a && c !in b
    ensures RemoveChar(a + [x] + b, c) == a + (if x == c then [] else [x]) + b
  {
    RemoveCharAppend(a + [x], b, c);
    RemoveCharAppend(a, [x], c);
  }

  lemma ReplaceCharMid(a: string, b: string, c: char, d: char)
    requires c !in a && c !in b
    ensures ReplaceChar(a + [c] + b, c, d) == a + [d] + b
  {
    ReplaceCharAppend(a + [c], b, c, d);
    ReplaceCharAppend(a, [c], c, d);
    ReplaceCharAbsent(a, c, d);
    ReplaceCharAbsent(b, c, d);
  }

  /** The last `x` of a + [x] + b, when b has none, is at |a|. */
  lemma LastAt(a: string, x: char, b: string)
    requires x !in b
    ensures LastIndexOf(a + [x] + b, x) == |a|
  {
    var s := a + [x] + b;
    var k := LastIndexOf(s, x);
    assert s[|a|] == x;
  }

  lemma NoSeparators(a: string)
    requires AllDigits(a)
    ensures '.' !in a && ',' !in a
  {
    assert forall i :: 0 <= i < |a| ==> IsDigit(a[i]);
  }

  /** The branch of Normalise taken when both separators occur. */
  lemma NormaliseBoth(s: string)
    requires '.' in s && ',' in s
    ensures Normalise(s) == if LastIndexOf(s, ',') > LastIndexOf(s, '.')
      then ReplaceChar(RemoveChar(s, '.'), ',', '.')
      else ReplaceChar(RemoveChar(s, ','), '.', '.')
  {
  }

  lemma NormaliseDotThenComma(a: string, b: string, c: string)
    requires AllDigits(a) && AllDigits(b) && AllDigits(c)
    ensures Normalise(a + "." + b + "," + c) == a + b + "." + c
  {
    NoSeparators(a);
    NoSeparators(b);
    NoSeparators(c);
    DotThenComma(a, b, c);
  }

  lemma DotThenComma(a: string, b: string, c: string)
    requires '.' !in a && '.' !in b && '.' !in c && ',' !in a && ',' !in b && ',' !in c
    ensures Normalise(a + "." + b + "," + c) == a + b + "." + c
  {
    var s := a + "." + b + "," + c;
    SeparatorsLast(a, b, c, '.', ',');
    NormaliseBoth(s);
    DotThenCommaRemove(a, b, c);
    ReplaceCharMid(a + b, c, ',', '.');
  }

  /** In a + [x] + b + [y] + c with neither separator in a, b or c, the last x and y are the two given. */
  lemma SeparatorsLast(a: string, b: string, c: string, x: char, y: char)
    requires x != y && x !in a && x !in b && x !in c && y !in a && y !in b && y !in c
    ensures var s := a + [x] + b + [y] + c;
      LastIndexOf(s, x) == |a| && LastIndexOf(s, y) == |a| + 1 + |b|
  {
    var tail := b + [y] + c;
    assert a + [x] + b + [y] + c == a + [x] + tail;
    LastAt(a, x, tail);
    LastAt(a + [x] + b, y, c);
  }

  lemma DotThenCommaRemove(a: string, b: string, c: string)
    requires '.' !in a && '.' !in b && '.' !in c
    ensures RemoveChar(a + "." + b + "," + c, '.') == (a + b) + [','] + c
  {
    RemoveCharAppend(a + "." + b + ",", c, '.');
    RemoveCharAppend(a + "." + b, ",", '.');
    RemoveCharAppend(a + ".", b, '.');
    RemoveCharAppend(a, ".", '.');
    assert RemoveChar(".", '.') == [];
    assert a + [] == a;
  }

  lemma NormaliseCommaThenDot(a: string, b: string, c: string)
    requires AllDigits(a) && AllDigits(b) && AllDigits(c)
    ensures Normalise(a + "," + b + "." + c) == a + b + "." + c
  {
    NoSeparators(a);
    NoSeparators(b);
    NoSeparators(c);
    CommaThenDot(a, b, c);
  }

  lemma CommaThenDot(a: string, b: string, c: string)
    requires '.' !in a && '.' !in b && '.' !in c && ',' !in a && ',' !in b && ',' !in c
    ensures Normalise(a + "," + b + "." + c) == a + b + "." + c
  {
    var s := a + "," + b + "." + c;
    SeparatorsLast(a, b, c, ',', '.');
    NormaliseBoth(s);
    CommaThenDotRemove(a, b, c);
    ReplaceCharAbsent((a + b) + ['.'] + c, '.', '.');
  }

  lemma CommaThenDotRemove(a: string, b: string, c: string)
    requires ',' !in a && ',' !in b && ',' !in c
    ensures RemoveChar(a + "," + b + "." + c, ',') == (a + b) + ['.'] + c
  {
    RemoveCharAppend(a + "," + b + ".", c, ',');
    RemoveCharAppend(a + "," + b, ".", ',');
    RemoveCharAppend(a + ",", b, ',');
    RemoveCharAppend(a, ",", ',');
    assert RemoveChar(",", ',') == [];
    assert a + [] == a;
  }

  lemma NormaliseTwoDots(a: string, b: string, c: string)
    requires AllDigits(a) && AllDigits(b) && AllDigits(c) && |c| == 2
    ensures Normalise(a + "." + b + "." + c) == a + "." + b + "." + c
  {
    var s := a + "." + b + "." + c;
    assert s == (a + "." + b) + "." + c;
    assert ',' !in s by {
      assert forall i :: 0 <= i < |s| ==> s[i] != ',';
    }
    assert s[|a|] == '.';
    LastPart(a + "." + b, c, '.');
  }

  /** "959,00": one comma and exactly two digits after it is a decimal comma. */
  lemma ParseDecimalComma(a: string, b: string)
    requires a != [] && AllDigits(a) && AllDigits(b) && |b| == 2
    ensures ParsePrice(a + "," + b) == Some(a + "." + b)
  {
    var s := a + "," + b;
    assert forall i :: 0 <= i < |s| ==> IsPriceChar(s[i]);
    ParseFiltered(s);
    NormaliseDecimalComma(a, b);
    NumericDecimal(a, b);
  }

  /**
   * "1,499": a single comma followed by anything but two digits is a thousands
   * separator, so "1,5" also reads as 15.
   */
  lemma ParseThousandsComma(a: string, b: string)
    requires a != [] && AllDigits(a) && AllDigits(b) && |b| != 2
    ensures ParsePrice(a + "," + b) == Some(a + b)
  {
    var s := a + "," + b;
    assert forall i :: 0 <= i < |s| ==> IsPriceChar(s[i]);
    ParseFiltered(s);
    NormaliseThousands(a, b, ',');
    assert AllDigits(a + b);
    NumericInteger(a + b);
  }

  /** "1499.00": one dot and exactly two digits after it stays the decimal point. */
  lemma ParseDecimalDot(a: string, b: string)
    requires a != [] && AllDigits(a) && AllDigits(b) && |b| == 2
    ensures ParsePrice(a + "." + b) == Some(a + "." + b)
  {
    var s := a + "." + b;
    assert forall i :: 0 <= i < |s| ==> IsPriceChar(s[i]);
    ParseFiltered(s);
    NormaliseDecimalDot(a, b);
    NumericDecimal(a, b);
  }

  /**
   * "1.499": a single dot followed by anything but two digits is a thousands
   * separator, so "9.5" also reads as 95.
   */
  lemma ParseThousandsDot(a: string, b: string)
    requires a != [] && AllDigits(a) && AllDigits(b) && |b| != 2
    ensures ParsePrice(a + "." + b) == Some(a + b)
  {
    var s := a + "." + b;
    assert forall i :: 0 <= i < |s| ==> IsPriceChar(s[i]);
    ParseFiltered(s);
    NormaliseThousands(a, b, '.');
    assert AllDigits(a + b);
    NumericInteger(a + b);
  }

  /** "1499": digits alone are the number. */
  lemma ParseInteger(a: string)
    requires a != [] && AllDigits(a)
    ensures ParsePrice(a) == Some(a)
  {
    assert forall i :: 0 <= i < |a| ==> IsPriceChar(a[i]);
    assert a != "-" by {
      assert IsDigit(a[0]);
    }
    ParseFiltered(a);
    assert '.' !in a && ',' !in a by {
      assert forall i :: 0 <= i < |a| ==> IsDigit(a[i]);
    }
    NumericInteger(a);
  }

  /** "1.499,00": with both separators, a later comma is the decimal point. */
  lemma ParseDotThenComma(a: string, b: string, c: string)
    requires a != [] && AllDigits(a) && AllDigits(b) && AllDigits(c)
    ensures ParsePrice(a + "." + b + "," + c) == Some(a + b + "." + c)
  {
    var s := a + "." + b + "," + c;
    assert forall i :: 0 <= i < |s| ==> IsPriceChar(s[i]);
    ParseFiltered(s);
    NormaliseDotThenComma(a, b, c);
    assert AllDigits(a + b);
    NumericDecimal(a + b, c);
  }

  /** "1,499.00": with both separators, a later dot is the decimal point. */
  lemma ParseCommaThenDot(a: string, b: string, c: string)
    requires a != [] && AllDigits(a) && AllDigits(b) && AllDigits(c)
    ensures ParsePrice(a + "," + b + "." + c) == Some(a + b + "." + c)
  {
    var s := a + "," + b + "." + c;
    assert forall i :: 0 <= i < |s| ==> IsPriceChar(s[i]);
    ParseFiltered(s);
    NormaliseCommaThenDot(a, b, c);
    assert AllDigits(a + b);
    NumericDecimal(a + b, c);
  }

  /** "1.2.34": two dots and two final digits is not a number. */
  lemma ParseTwoDotsRejected(a: string, b: string, c: string)
    requires a != [] && AllDigits(a) && AllDigits(b) && AllDigits(c) && |c| == 2
    ensures ParsePrice(a + "." + b + "." + c) == None
  {
    var s := a + "." + b + "." + c;
    TwoDotsPriceChars(a, b, c);
    ParseFiltered(s);
    NormaliseTwoDots(a, b, c);
    TwoDotsNotNumeric(a, b, c);
  }

  lemma TwoDotsPriceChars(a: string, b: string, c: string)
    requires AllDigits(a) && AllDigits(b) && AllDigits(c)
    ensures var s := a + "." + b + "." + c; forall i :: 0 <= i < |s| ==> IsPriceChar(s[i])
  {
  }

  /** Two dots are never numeric. */
  lemma TwoDotsNotNumeric(a: string, b: string, c: string)
    ensures !IsNumeric(a + "." + b + "." + c)
  {
    var q := b + "." + c;
    assert a + "." + b + "." + c == a + "." + q;
    assert q[|b|] == '.';
    if IsNumeric(a + "." + q) {
      NumericOneDot(a, q);
      assert false;
    }
  }
}
