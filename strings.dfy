/**
 * The PHP string primitives the plugin relies on, over `string` (a `seq<char>`):
 * trim(), ltrim() of one character, preg_replace() of a literal pattern,
 * str_replace() of one character, explode(), intval(), strval() of an int,
 * strtolower()/ucfirst() on ASCII, and empty() on a string.
 */
module Strings {

  datatype Option<T> = None | Some(value: T)

  // ---------------------------------------------------------------------------
  // empty() and prefixes
  // ---------------------------------------------------------------------------

  /** PHP's empty() on a string value: true for "" and for "0". */
  predicate PhpEmpty(s: string) {
    s == "" || s == "0"
  }

  predicate StartsWith(s: string, prefix: string) {
    |prefix| <= |s| && s[..|prefix|] == prefix
  }

  /** `pat` occurs somewhere in `s` as a contiguous block. */
  predicate Occurs(s: string, pat: string)
    decreases |s|
  {
    StartsWith(s, pat) || (s != [] && Occurs(s[1..], pat))
  }

  /** strpos(): index of the first `c`, or |s| when there is none. */
  function IndexOf(s: string, c: char): (i: nat)
    ensures i <= |s|
    ensures i < |s| ==> s[i] == c
    ensures c !in s[..i]
  {
    if s == [] || s[0] == c then 0 else 1 + IndexOf(s[1..], c)
  }

  /** The first `c` of `x + [c] + y` is the one right after `x` when `x` has none. */
  lemma {:induction false} IndexOfAfter(x: string, y: string, c: char)
    requires c !in x
    ensures IndexOf(x + [c] + y, c) == |x|
  {
    if x != [] {
      assert (x + [c] + y)[1..] == x[1..] + [c] + y;
      IndexOfAfter(x[1..], y, c);
    }
  }

  // ---------------------------------------------------------------------------
  // trim()
  // ---------------------------------------------------------------------------

  /** The characters trim() strips by default: space, tab, LF, CR, NUL and vertical tab. */
  predicate IsTrimSpace(c: char) {
    c == ' ' || c == '\t' || c == '\n' || c == '\r' || c == '\0' || c == '\U{000B}'
  }

  predicate IsDigit(c: char) {
    '0' <= c <= '9'
  }

  predicate AllDigits(s: string) {
    forall i :: 0 <= i < |s| ==> IsDigit(s[i])
  }

  /** ltrim(): drop the longest prefix of trim characters. */
  function TrimLeft(s: string): (r: string)
    ensures |r| <= |s|
    ensures r == [] || !IsTrimSpace(r[0])
    ensures forall i :: 0 <= i < |s| - |r| ==> IsTrimSpace(s[i])
  {
    if s != [] && IsTrimSpace(s[0]) then TrimLeft(s[1..]) else s
  }

  /** rtrim(): drop the longest suffix of trim characters. */
  function TrimRight(s: string): (r: string)
    ensures |r| <= |s|
    ensures r == [] || !IsTrimSpace(r[|r| - 1])
    ensures forall i :: |r| <= i < |s| ==> IsTrimSpace(s[i])
  {
    if s != [] && IsTrimSpace(s[|s| - 1]) then TrimRight(s[..|s| - 1]) else s
  }

  /** trim(): rtrim() of ltrim(). */
  function Trim(s: string): string {
    TrimRight(TrimLeft(s))
  }

  /** trim() strips trim characters from both ends and nothing else. */
  lemma TrimShape(s: string)
    ensures var r := Trim(s);
      (r == [] || (!IsTrimSpace(r[0]) && !IsTrimSpace(r[|r| - 1]))) &&
      ((forall i :: 0 <= i < |s| ==> !IsTrimSpace(s[i])) ==> r == s) &&
      ((forall i :: 0 <= i < |s| ==> IsTrimSpace(s[i])) ==> r == [])
  {
    var l := TrimLeft(s);
    var r := TrimRight(l);
    TrimLeftSuffix(s);
    TrimRightPrefix(l);
    assert r != [] ==> r[0] == l[0];
    assert (forall i :: 0 <= i < |s| ==> !IsTrimSpace(s[i])) ==> l == s;
  }

  /** ltrim() leaves a suffix. */
  lemma {:induction false} TrimLeftSuffix(s: string)
    ensures TrimLeft(s) == s[|s| - |TrimLeft(s)|..]
  {
    if s != [] && IsTrimSpace(s[0]) {
      TrimLeftSuffix(s[1..]);
    }
  }

  /** rtrim() leaves a prefix. */
  lemma {:induction false} TrimRightPrefix(s: string)
    ensures TrimRight(s) == s[..|TrimRight(s)|]
  {
    if s != [] && IsTrimSpace(s[|s| - 1]) {
      TrimRightPrefix(s[..|s| - 1]);
    }
  }

  lemma TrimLeftSplits(s: string) returns (a: string)
    ensures s == a + TrimLeft(s)
    ensures forall i :: 0 <= i < |a| ==> IsTrimSpace(a[i])
  {
    var l := TrimLeft(s);
    TrimLeftSuffix(s);
    a := s[..|s| - |l|];
    assert s == a + s[|s| - |l|..];
  }

  lemma TrimRightSplits(s: string) returns (b: string)
    ensures s == TrimRight(s) + b
    ensures forall i :: 0 <= i < |b| ==> IsTrimSpace(b[i])
  {
    var r := TrimRight(s);
    TrimRightPrefix(s);
    b := s[|r|..];
    assert s == s[..|r|] + b;
    forall i | 0 <= i < |b| ensures IsTrimSpace(b[i]) {
      assert b[i] == s[|r| + i];
    }
  }

  /** Trimming splits `s` into white space, the result, and white space. */
  lemma TrimSplits(s: string) returns (a: string, b: string)
    ensures s == a + Trim(s) + b
    ensures forall i :: 0 <= i < |a| ==> IsTrimSpace(a[i])
    ensures forall i :: 0 <= i < |b| ==> IsTrimSpace(b[i])
  {
    a := TrimLeftSplits(s);
    b := TrimRightSplits(TrimLeft(s));
  }

  // ---------------------------------------------------------------------------
  // ltrim($s, '.')
  // ---------------------------------------------------------------------------

  /** ltrim() with an explicit character list of one character. */
  function TrimLeftChar(s: string, c: char): (r: string)
    ensures |r| <= |s|
    ensures r == [] || r[0] != c
    ensures forall i :: 0 <= i < |s| - |r| ==> s[i] == c
  {
    if s != [] && s[0] == c then TrimLeftChar(s[1..], c) else s
  }

  /** Prepending more copies of `c` does not change what ltrim() leaves. */
  lemma {:induction false} TrimLeftCharPrefix(s: string, c: char)
    ensures TrimLeftChar([c] + s, c) == TrimLeftChar(s, c)
  {
    assert ([c] + s)[1..] == s;
  }

  lemma {:induction false} TrimLeftCharIdempotent(s: string, c: char)
    ensures TrimLeftChar(TrimLeftChar(s, c), c) == TrimLeftChar(s, c)
  {
    var r := TrimLeftChar(s, c);
    assert r == [] || r[0] != c;
  }

  // ---------------------------------------------------------------------------
  // Character filters: preg_replace('/[^...]/', '', $s) and str_replace of one char
  // ---------------------------------------------------------------------------

  /** preg_replace('/[^0-9]/', '', $s): the ASCII digits of `s`, in order. */
  function DigitsOf(s: string): (r: string)
    ensures |r| <= |s|
    ensures forall i :: 0 <= i < |r| ==> IsDigit(r[i])
  {
    if s == [] then []
    else (if IsDigit(s[0]) then [s[0]] else []) + DigitsOf(s[1..])
  }

  lemma {:induction false} DigitsOfAppend(a: string, b: string)
    ensures DigitsOf(a + b) == DigitsOf(a) + DigitsOf(b)
  {
    if a == [] {
      assert a + b == b;
    } else {
      assert (a + b)[1..] == a[1..] + b;
      DigitsOfAppend(a[1..], b);
    }
  }

  lemma {:induction false} DigitsOfNone(s: string)
    requires forall i :: 0 <= i < |s| ==> !IsDigit(s[i])
    ensures DigitsOf(s) == []
  {
    if s != [] {
      DigitsOfNone(s[1..]);
    }
  }

  lemma {:induction false} DigitsOfAll(s: string)
    requires forall i :: 0 <= i < |s| ==> IsDigit(s[i])
    ensures DigitsOf(s) == s
  {
    if s != [] {
      DigitsOfAll(s[1..]);
    }
  }

  /** trim() never removes a digit. */
  lemma DigitsOfTrim(s: string)
    ensures DigitsOf(Trim(s)) == DigitsOf(s)
  {
    var a, b := TrimSplits(s);
    var t := Trim(s);
    assert forall i :: 0 <= i < |a| ==> !IsDigit(a[i]);
    assert forall i :: 0 <= i < |b| ==> !IsDigit(b[i]);
    DigitsOfNone(a);
    DigitsOfNone(b);
    DigitsOfAppend(a + t, b);
    DigitsOfAppend(a, t);
    assert DigitsOf(s) == DigitsOf(a) + DigitsOf(t) + DigitsOf(b);
  }

  /** str_replace($c, '', $s). */
  function RemoveChar(s: string, c: char): (r: string)
    ensures |r| <= |s|
    ensures c !in r
    ensures c !in s ==> r == s
    ensures forall x :: x in r ==> x in s
  {
    if s == [] then []
    else (if s[0] == c then [] else [s[0]]) + RemoveChar(s[1..], c)
  }

  /** str_replace($c, $d, $s) for single characters. */
  function ReplaceChar(s: string, c: char, d: char): (r: string)
    ensures |r| == |s|
    ensures forall i :: 0 <= i < |s| ==> r[i] == (if s[i] == c then d else s[i])
    ensures c != d ==> c !in r
  {
    if s == [] then []
    else [if s[0] == c then d else s[0]] + ReplaceChar(s[1..], c, d)
  }

  /** Removing a non-digit keeps every digit, in order. */
  lemma {:induction false} RemoveCharAppend(a: string, b: string, c: char)
    ensures RemoveChar(a + b, c) == RemoveChar(a, c) + RemoveChar(b, c)
  {
    if a == [] {
      assert a + b == b;
    } else {
      assert (a + b)[1..] == a[1..] + b;
      RemoveCharAppend(a[1..], b, c);
    }
  }

  lemma {:induction false} ReplaceCharAppend(a: string, b: string, c: char, d: char)
    ensures ReplaceChar(a + b, c, d) == ReplaceChar(a, c, d) + ReplaceChar(b, c, d)
  {
    if a == [] {
      assert a + b == b;
    } else {
      assert (a + b)[1..] == a[1..] + b;
      ReplaceCharAppend(a[1..], b, c, d);
    }
  }

  lemma {:induction false} DigitsOfRemoveChar(s: string, c: char)
    requires !IsDigit(c)
    ensures DigitsOf(RemoveChar(s, c)) == DigitsOf(s)
  {
    if s != [] {
      DigitsOfRemoveChar(s[1..], c);
      var head := if s[0] == c then [] else [s[0]];
      DigitsOfAppend(head, RemoveChar(s[1..], c));
      assert DigitsOf(head) == (if IsDigit(s[0]) then [s[0]] else []);
    }
  }

  /** Turning one non-digit into another keeps every digit, in order. */
  lemma {:induction false} DigitsOfReplaceChar(s: string, c: char, d: char)
    requires !IsDigit(c) && !IsDigit(d)
    ensures DigitsOf(ReplaceChar(s, c, d)) == DigitsOf(s)
  {
    if s != [] {
      DigitsOfReplaceChar(s[1..], c, d);
      var head := [if s[0] == c then d else s[0]];
      DigitsOfAppend(head, ReplaceChar(s[1..], c, d));
      assert DigitsOf(head) == (if IsDigit(s[0]) then [s[0]] else []);
    }
  }

  // ---------------------------------------------------------------------------
  // preg_replace of a literal pattern: leftmost, non-overlapping, one pass
  // ---------------------------------------------------------------------------

  /** preg_replace('/pat/', '', $s) for a pattern matching exactly the literal `pat`. */
  function RemoveAll(s: string, pat: string): (r: string)
    ensures |r| <= |s|
    decreases |s|
  {
    if pat == [] || |s| < |pat| then s
    else if s[..|pat|] == pat then RemoveAll(s[|pat|..], pat)
    else [s[0]] + RemoveAll(s[1..], pat)
  }

  /** Without an occurrence of the pattern, preg_replace leaves the string alone. */
  lemma {:induction false} RemoveAllAbsent(s: string, pat: string)
    requires !Occurs(s, pat)
    ensures RemoveAll(s, pat) == s
    decreases |s|
  {
    if pat != [] && |s| >= |pat| {
      assert !StartsWith(s, pat);
      RemoveAllAbsent(s[1..], pat);
      assert s == [s[0]] + s[1..];
    }
  }

  /** A pattern with a character that `s` lacks cannot occur in `s`. */
  lemma {:induction false} NotOccursWithoutChar(s: string, pat: string, c: char)
    requires c in pat && c !in s
    ensures !Occurs(s, pat)
    decreases |s|
  {
    if |pat| <= |s| {
      var k :| 0 <= k < |pat| && pat[k] == c;
      assert s[..|pat|][k] == s[k] != c;
    }
    if s != [] {
      NotOccursWithoutChar(s[1..], pat, c);
    }
  }

  /** A leading occurrence is removed and scanning resumes after it. */
  lemma RemoveAllLeading(pat: string, t: string)
    requires pat != []
    ensures RemoveAll(pat + t, pat) == RemoveAll(t, pat)
  {
    assert (pat + t)[..|pat|] == pat;
    assert (pat + t)[|pat|..] == t;
  }

  /** Text without the pattern's first character is copied through. */
  lemma {:induction false} RemoveAllSkip(p: string, t: string, pat: string)
    requires pat != [] && pat[0] !in p
    ensures RemoveAll(p + t, pat) == p + RemoveAll(t, pat)
    decreases |p|
  {
    var s := p + t;
    if p == [] {
      assert s == t;
    } else if |s| < |pat| {
      assert RemoveAll(s, pat) == s;
      assert RemoveAll(t, pat) == t;
    } else {
      assert p[0] in p;
      assert s[..|pat|][0] == p[0] != pat[0];
      assert RemoveAll(s, pat) == [s[0]] + RemoveAll(s[1..], pat);
      assert s[1..] == p[1..] + t;
      assert pat[0] !in p[1..] by {
        assert forall x :: x in p[1..] ==> x in p;
      }
      RemoveAllSkip(p[1..], t, pat);
      assert [p[0]] + p[1..] == p;
    }
  }

  // ---------------------------------------------------------------------------
  // explode() and its inverse implode()
  // ---------------------------------------------------------------------------

  /** explode($sep, $s): the pieces between separators; "" gives [""]. */
  function Split(s: string, sep: char): (parts: seq<string>)
    ensures |parts| >= 1
  {
    if s == [] then [[]]
    else
      var rest := Split(s[1..], sep);
      if s[0] == sep then [[]] + rest
      else [[s[0]] + rest[0]] + rest[1..]
  }

  /** implode($sep, $parts). */
  function Join(parts: seq<string>, sep: char): string
    requires |parts| >= 1
  {
    if |parts| == 1 then parts[0] else parts[0] + [sep] + Join(parts[1..], sep)
  }

  /** Joining a concatenation puts one separator between the two joins. */
  lemma {:induction false} JoinConcat(a: seq<string>, b: seq<string>, sep: char)
    requires |a| >= 1 && |b| >= 1
    ensures Join(a + b, sep) == Join(a, sep) + [sep] + Join(b, sep)
    decreases |a|
  {
    if |a| == 1 {
      assert (a + b)[1..] == b;
    } else {
      assert (a + b)[1..] == a[1..] + b;
      JoinConcat(a[1..], b, sep);
    }
  }

  /** implode undoes explode. */
  lemma {:induction false} JoinSplit(s: string, sep: char)
    ensures Join(Split(s, sep), sep) == s
  {
    if s != [] {
      var c, t := s[0], s[1..];
      assert s == [c] + t;
      JoinSplit(t, sep);
      if c == sep {
        SplitAfterSeparator(t, sep);
        JoinAfterEmpty(Split(t, sep), sep);
      } else {
        SplitAfterOther(c, t, sep);
        JoinAfterChar(c, Split(t, sep), sep);
      }
    }
  }

  lemma JoinAfterEmpty(rest: seq<string>, sep: char)
    requires |rest| >= 1
    ensures Join([[]] + rest, sep) == [sep] + Join(rest, sep)
  {
    assert ([[]] + rest)[1..] == rest;
  }

  lemma JoinAfterChar(c: char, rest: seq<string>, sep: char)
    requires |rest| >= 1
    ensures Join([[c] + rest[0]] + rest[1..], sep) == [c] + Join(rest, sep)
  {
    var parts := [[c] + rest[0]] + rest[1..];
    if |rest| > 1 {
      assert parts[1..] == rest[1..];
    }
  }

  /** No piece of explode() contains the separator. */
  lemma {:induction false} SplitPieces(s: string, sep: char)
    ensures forall i :: 0 <= i < |Split(s, sep)| ==> sep !in Split(s, sep)[i]
    decreases |s|
  {
    if s != [] {
      SplitPieces(s[1..], sep);
      var rest := Split(s[1..], sep);
      if s[0] != sep {
        assert forall x :: x in [s[0]] + rest[0] ==> x == s[0] || x in rest[0];
      }
    }
  }

  /** explode undoes implode when no piece contains the separator. */
  lemma {:induction false} SplitJoin(parts: seq<string>, sep: char)
    requires |parts| >= 1
    requires forall i :: 0 <= i < |parts| ==> sep !in parts[i]
    ensures Split(Join(parts, sep), sep) == parts
    decreases |parts|, |parts[0]|
  {
    var p := parts[0];
    if p == [] {
      if |parts| > 1 {
        SplitJoin(parts[1..], sep);
        JoinEmptyHead(parts, sep);
        SplitAfterSeparator(Join(parts[1..], sep), sep);
        assert [[]] + parts[1..] == parts;
      }
    } else {
      var shorter := [p[1..]] + parts[1..];
      assert shorter[1..] == parts[1..];
      assert sep !in p[1..] by {
        assert forall x :: x in p[1..] ==> x in p;
      }
      SplitJoin(shorter, sep);
      JoinFirstChar(parts, sep);
      assert p[0] != sep by {
        assert p[0] in p;
      }
      SplitAfterOther(p[0], Join(shorter, sep), sep);
      assert [p[0]] + p[1..] == p;
      assert [p] + parts[1..] == parts;
    }
  }

  lemma JoinEmptyHead(parts: seq<string>, sep: char)
    requires |parts| > 1 && parts[0] == []
    ensures Join(parts, sep) == [sep] + Join(parts[1..], sep)
  {
  }

  lemma JoinFirstChar(parts: seq<string>, sep: char)
    requires |parts| >= 1 && parts[0] != []
    ensures Join(parts, sep) == [parts[0][0]] + Join([parts[0][1..]] + parts[1..], sep)
  {
    var p := parts[0];
    var shorter := [p[1..]] + parts[1..];
    assert shorter[0] == p[1..] && shorter[1..] == parts[1..];
    if |parts| == 1 {
      assert p == [p[0]] + p[1..];
    } else {
      assert Join(parts, sep) == [p[0]] + (p[1..] + [sep] + Join(parts[1..], sep));
    }
  }

  lemma SplitAfterSeparator(t: string, sep: char)
    ensures Split([sep] + t, sep) == [[]] + Split(t, sep)
  {
    assert ([sep] + t)[1..] == t;
  }

  lemma SplitAfterOther(c: char, t: string, sep: char)
    requires c != sep
    ensures Split([c] + t, sep) == [[c] + Split(t, sep)[0]] + Split(t, sep)[1..]
  {
    assert ([c] + t)[1..] == t;
  }

  function Last<T>(xs: seq<T>): T
    requires xs != []
  {
    xs[|xs| - 1]
  }

  // ---------------------------------------------------------------------------
  // intval() on a string and strval() of an int
  // ---------------------------------------------------------------------------

  /** The white space a leading-numeric string may start with. */
  predicate IsNumericSpace(c: char) {
    c == ' ' || c == '\t' || c == '\n' || c == '\r' || c == '\U{000B}' || c == '\U{000C}'
  }

  function SkipNumericSpace(s: string): string {
    if s != [] && IsNumericSpace(s[0]) then SkipNumericSpace(s[1..]) else s
  }

  /** The longest prefix of ASCII digits. */
  function LeadingDigits(s: string): (r: string)
    ensures StartsWith(s, r)
    ensures forall i :: 0 <= i < |r| ==> IsDigit(r[i])
    ensures |r| == |s| || !IsDigit(s[|r|])
  {
    if s != [] && IsDigit(s[0]) then [s[0]] + LeadingDigits(s[1..]) else []
  }

  function DigitValue(c: char): nat
    requires IsDigit(c)
  {
    (c as int - '0' as int) as nat
  }

  /** The number a string of decimal digits denotes. */
  function DecimalValue(ds: string): nat
    requires forall i :: 0 <= i < |ds| ==> IsDigit(ds[i])
  {
    if ds == [] then 0 else DecimalValue(ds[..|ds| - 1]) * 10 + DigitValue(ds[|ds| - 1])
  }

  /**
   * intval() of a string: optional leading white space, an optional sign, then
   * the longest run of digits; 0 when there is no digit.
   */
  function IntVal(s: string): int {
    var t := SkipNumericSpace(s);
    if t != [] && t[0] == '-' then -(DecimalValue(LeadingDigits(t[1..])) as int)
    else if t != [] && t[0] == '+' then DecimalValue(LeadingDigits(t[1..]))
    else DecimalValue(LeadingDigits(t))
  }

  function DigitChar(d: nat): (c: char)
    requires d < 10
    ensures IsDigit(c) && DigitValue(c) == d
  {
    ('0' as int + d) as char
  }

  /** The decimal digits of a natural number, most significant first. */
  function NatToString(n: nat): (s: string)
    ensures s != []
    ensures forall i :: 0 <= i < |s| ==> IsDigit(s[i])
  {
    if n < 10 then [DigitChar(n)] else NatToString(n / 10) + [DigitChar(n % 10)]
  }

  /** strval() of an int, as PHP writes an int inside a double-quoted string. */
  function IntToString(n: int): (s: string)
    ensures s != [] && (IsDigit(s[0]) || s[0] == '-')
    ensures forall i :: 0 <= i < |s| ==> IsDigit(s[i]) || s[i] == '-'
  {
    if n < 0 then "-" + NatToString(-n) else NatToString(n)
  }

  lemma {:induction false} DecimalValueOfNatToString(n: nat)
    ensures DecimalValue(NatToString(n)) == n
  {
    if n >= 10 {
      DecimalValueOfNatToString(n / 10);
      var s := NatToString(n);
      assert s[..|s| - 1] == NatToString(n / 10);
    }
  }

  lemma {:induction false} LeadingDigitsAll(s: string)
    requires forall i :: 0 <= i < |s| ==> IsDigit(s[i])
    ensures LeadingDigits(s) == s
  {
    if s != [] {
      LeadingDigitsAll(s[1..]);
    }
  }

  /** intval() reads back what strval() wrote. */
  lemma IntValOfIntToString(n: int)
    ensures IntVal(IntToString(n)) == n
  {
    var s := IntToString(n);
    assert SkipNumericSpace(s) == s;
    if n < 0 {
      assert s[1..] == NatToString(-n);
      LeadingDigitsAll(NatToString(-n));
      DecimalValueOfNatToString(-n);
    } else {
      LeadingDigitsAll(s);
      DecimalValueOfNatToString(n);
    }
  }

  /** Distinct ints print differently. */
  lemma IntToStringInjective(m: int, n: int)
    requires IntToString(m) == IntToString(n)
    ensures m == n
  {
    IntValOfIntToString(m);
    IntValOfIntToString(n);
  }

  // ---------------------------------------------------------------------------
  // strtolower() and ucfirst() on ASCII letters
  // ---------------------------------------------------------------------------

  function LowerChar(c: char): char {
    if 'A' <= c <= 'Z' then (c as int + 32) as char else c
  }

  function UpperChar(c: char): char {
    if 'a' <= c <= 'z' then (c as int - 32) as char else c
  }

  function ToLower(s: string): (r: string)
    ensures |r| == |s|
    ensures forall i :: 0 <= i < |s| ==> r[i] == LowerChar(s[i])
  {
    if s == [] then [] else [LowerChar(s[0])] + ToLower(s[1..])
  }

  function UcFirst(s: string): (r: string)
    ensures |r| == |s|
    ensures s != [] ==> r[0] == UpperChar(s[0]) && r[1..] == s[1..]
  {
    if s == [] then [] else [UpperChar(s[0])] + s[1..]
  }
}
