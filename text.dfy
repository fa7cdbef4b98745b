/**
 * The .NET string operations the modelled code relies on, with ordinal
 * (code-point by code-point) semantics: prefix and suffix tests, searches,
 * String.Split on one character, the Regex.Split patterns the code uses,
 * String.Trim, String.Length in UTF-16 code units, integer conversion with
 * 32-bit wrap-around, and ordinal ordering.
 */
module Text {
  import opened Base

  predicate StartsWith(s: string, prefix: string) {
    |prefix| <= |s| && s[..|prefix|] == prefix
  }

  predicate EndsWith(s: string, suffix: string) {
    |suffix| <= |s| && s[|s| - |suffix|..] == suffix
  }

  /**
   * Char.IsWhiteSpace, the characters String.Trim removes and the regex class
   * `\s` matches: the controls U+0009 to U+000D and U+0085, and the space,
   * line and paragraph separators of Unicode (categories Zs, Zl and Zp).
   */
  predicate IsWhiteSpace(c: char) {
    || '\t' <= c <= '\r'
    || c == ' ' || c == '\U{85}' || c == '\U{A0}' || c == '\U{1680}'
    || '\U{2000}' <= c <= '\U{200A}'
    || c == '\U{2028}' || c == '\U{2029}' || c == '\U{202F}' || c == '\U{205F}' || c == '\U{3000}'
  }

  /**
   * String.Length: the number of UTF-16 code units, which is two for a
   * character outside the Basic Multilingual Plane and one for any other.
   */
  function Utf16Length(s: string): (n: nat)
    ensures |s| <= n <= 2 * |s|
  {
    if |s| == 0 then 0 else (if s[0] as int >= 0x1_0000 then 2 else 1) + Utf16Length(s[1..])
  }

  /** Text within the Basic Multilingual Plane is as long in UTF-16 as in characters. */
  lemma {:induction false} Utf16LengthBmp(s: string)
    requires forall i :: 0 <= i < |s| ==> s[i] as int < 0x1_0000
    ensures Utf16Length(s) == |s|
  {
    if |s| > 0 {
      assert forall i :: 0 <= i < |s[1..]| ==> s[1..][i] == s[i + 1];
      Utf16LengthBmp(s[1..]);
    }
  }

  predicate IsDigit(c: char) {
    '0' <= c <= '9'
  }

  predicate AllDigits(s: string) {
    forall i :: 0 <= i < |s| ==> IsDigit(s[i])
  }

  /** String.IndexOf(char): the first position of `c`, or -1. */
  function IndexOfChar(s: string, c: char): (k: int)
    ensures -1 <= k < |s|
    ensures k >= 0 ==> s[k] == c && c !in s[..k]
    ensures k == -1 <==> c !in s
  {
    if |s| == 0 then -1
    else if s[0] == c then 0
    else
      var k := IndexOfChar(s[1..], c);
      assert s == [s[0]] + s[1..];
      if k == -1 then -1
      else
        assert s[..k + 1] == [s[0]] + s[1..][..k];
        k + 1
  }

  /** `p` occurs in `s` at position `k`. */
  predicate OccursAt(s: string, p: string, k: int) {
    0 <= k && k + |p| <= |s| && s[k..k + |p|] == p
  }

  /** String.IndexOf(string, from), ordinal: the first occurrence at or after `from`, or -1. */
  function IndexOfFrom(s: string, p: string, from: nat): (k: int)
    requires from <= |s|
    ensures k == -1 || (from <= k && OccursAt(s, p, k))
    ensures forall j :: from <= j && (k == -1 || j < k) ==> !OccursAt(s, p, j)
    decreases |s| - from
  {
    if from + |p| > |s| then -1
    else if s[from..from + |p|] == p then from
    else
      IndexOfFrom(s, p, from + 1)
  }

  /** String.IndexOf(string), ordinal. */
  function IndexOf(s: string, p: string): (k: int)
    ensures k == -1 || OccursAt(s, p, k)
    ensures forall j :: 0 <= j && (k == -1 || j < k) ==> !OccursAt(s, p, j)
  {
    IndexOfFrom(s, p, 0)
  }

  /** An occurrence with none before it is the one IndexOf finds. */
  lemma IndexOfAt(s: string, p: string, k: nat)
    requires OccursAt(s, p, k)
    requires forall j :: 0 <= j < k ==> !OccursAt(s, p, j)
    ensures IndexOf(s, p) == k
  {
  }

  /** String.Split(char): the pieces between occurrences of `c`; never empty. */
  function Split(s: string, c: char): (parts: seq<string>)
    ensures |parts| >= 1
    ensures forall i :: 0 <= i < |parts| ==> c !in parts[i]
    decreases |s|
  {
    var k := IndexOfChar(s, c);
    if k == -1 then [s] else [s[..k]] + Split(s[k + 1..], c)
  }

  /** String.Join: the parts with `sep` between consecutive ones. */
  function Join(parts: seq<string>, sep: string): string {
    if |parts| == 0 then ""
    else if |parts| == 1 then parts[0]
    else parts[0] + sep + Join(parts[1..], sep)
  }

  lemma {:induction false} SplitJoin(s: string, c: char)
    ensures Join(Split(s, c), [c]) == s
    decreases |s|
  {
    var k := IndexOfChar(s, c);
    if k != -1 {
      var rest := s[k + 1..];
      SplitJoin(rest, c);
      SplitAt(s, c);
      JoinCons(s[..k], Split(rest, c), [c]);
      Around(s, k);
    }
  }

  lemma {:induction false} JoinSplit(parts: seq<string>, c: char)
    requires |parts| >= 1
    requires forall i :: 0 <= i < |parts| ==> c !in parts[i]
    ensures Split(Join(parts, [c]), c) == parts
  {
    var s := Join(parts, [c]);
    if |parts| == 1 {
      assert IndexOfChar(s, c) == -1;
    } else {
      var rest := Join(parts[1..], [c]);
      assert s == parts[0] + [c] + rest;
      IndexOfAfterPrefix(parts[0], c, rest);
      assert s[..|parts[0]|] == parts[0];
      assert s[|parts[0]| + 1..] == rest;
      JoinSplit(parts[1..], c);
    }
  }

  lemma {:induction false} IndexOfAfterPrefix(a: string, c: char, rest: string)
    requires c !in a
    ensures IndexOfChar(a + [c] + rest, c) == |a|
  {
    var s := a + [c] + rest;
    assert s[|a|] == c;
  }

  /** IndexOfChar finds the first occurrence. */
  lemma IndexOfCharFirst(t: string, c: char, k: int)
    requires 0 <= k < |t| && t[k] == c && c !in t[..k]
    ensures IndexOfChar(t, c) == k
  {
    assert t[k] in t;
  }

  /** The separator appended to text without one splits it in two. */
  lemma SplitLastSeparator(s: string, c: char)
    requires c !in s
    ensures Split(s + [c], c) == [s, ""]
  {
    var t := s + [c];
    IndexOfCharFirst(t, c, |s|);
    assert t[..|s|] == s;
    assert t[|s| + 1..] == "";
  }

  /** Text that ends with the separator splits into one more, empty, piece. */
  lemma {:induction false} SplitTrailing(s: string, c: char)
    ensures Split(s + [c], c) == Split(s, c) + [""]
    decreases |s|
  {
    var t := s + [c];
    var k := IndexOfChar(s, c);
    if k == -1 {
      SplitLastSeparator(s, c);
    } else {
      var rest := s[k + 1..];
      SplitAppendAfter(s, c, k);
      assert Split(s, c) == [s[..k]] + Split(rest, c);
      SplitTrailing(rest, c);
      ConsAppend(s[..k], Split(rest, c), [""]);
    }
  }

  /** Text before the first separator is the first piece; the pieces of the rest follow. */
  lemma SplitCons(a: string, c: char, rest: string)
    requires c !in a
    ensures Split(a + [c] + rest, c) == [a] + Split(rest, c)
  {
    var s := a + [c] + rest;
    IndexOfAfterPrefix(a, c, rest);
    assert s[..|a|] == a && s[|a| + 1..] == rest;
  }

  /** Appending a separator leaves the first piece of text that already holds one as it was. */
  lemma SplitAppendAfter(s: string, c: char, k: int)
    requires k == IndexOfChar(s, c) && k != -1
    ensures Split(s + [c], c) == [s[..k]] + Split(s[k + 1..] + [c], c)
  {
    var t := s + [c];
    assert t[..k] == s[..k];
    IndexOfCharFirst(t, c, k);
    SplitAt(t, c);
    assert t[k + 1..] == s[k + 1..] + [c];
  }

  /** String.Split(char) on text that holds the separator: the text before it, then the pieces of the rest. */
  lemma SplitAt(s: string, c: char)
    requires c in s
    ensures Split(s, c) == [s[..IndexOfChar(s, c)]] + Split(s[IndexOfChar(s, c) + 1..], c)
  {
  }

  /** Joining a part in front of at least one more puts one separator after it. */
  lemma JoinCons(x: string, parts: seq<string>, sep: string)
    requires |parts| >= 1
    ensures Join([x] + parts, sep) == x + sep + Join(parts, sep)
  {
    assert ([x] + parts)[1..] == parts;
  }

  /** A string is the text before a position, the character there, and the text after. */
  lemma Around(s: string, k: int)
    requires 0 <= k < |s|
    ensures s == s[..k] + [s[k]] + s[k + 1..]
  {
  }

  /** Putting an element in front and appending commute. */
  lemma ConsAppend<T>(x: T, a: seq<T>, b: seq<T>)
    ensures [x] + (a + b) == ([x] + a) + b
  {
  }

  /** The first piece String.Split(char) yields is the text before the first `c`. */
  lemma SplitFirst(s: string, c: char)
    ensures Split(s, c)[0] == (if c in s then s[..IndexOfChar(s, c)] else s)
  {
  }

  /** String.TrimStart(): drops leading whitespace. */
  function TrimStart(s: string): (t: string)
    ensures |t| <= |s| && t == s[|s| - |t|..]
    ensures |t| > 0 ==> !IsWhiteSpace(t[0])
    ensures forall i :: 0 <= i < |s| - |t| ==> IsWhiteSpace(s[i])
  {
    if |s| > 0 && IsWhiteSpace(s[0]) then TrimStart(s[1..]) else s
  }

  /** String.TrimEnd(): drops trailing whitespace. */
  function TrimEnd(s: string): (t: string)
    ensures |t| <= |s| && t == s[..|t|]
    ensures |t| > 0 ==> !IsWhiteSpace(t[|t| - 1])
    ensures forall i :: |t| <= i < |s| ==> IsWhiteSpace(s[i])
  {
    if |s| > 0 && IsWhiteSpace(s[|s| - 1]) then TrimEnd(s[..|s| - 1]) else s
  }

  /** String.Trim(): drops leading and trailing whitespace. */
  function Trim(s: string): (t: string)
    ensures |t| <= |s|
    ensures |t| > 0 ==> !IsWhiteSpace(t[0]) && !IsWhiteSpace(t[|t| - 1])
    ensures |s| > 0 && !IsWhiteSpace(s[0]) && !IsWhiteSpace(s[|s| - 1]) ==> t == s
  {
    TrimEnd(TrimStart(s))
  }

  /** Trimming an already trimmed string changes nothing. */
  lemma TrimIdempotent(s: string)
    ensures Trim(Trim(s)) == Trim(s)
  {
  }

  /** Trimming adds no character. */
  lemma TrimChars(s: string)
    ensures forall c :: c in Trim(s) ==> c in s
  {
    var a := TrimStart(s);
    forall c | c in Trim(s) ensures c in s {
      var j :| 0 <= j < |Trim(s)| && Trim(s)[j] == c;
      assert a[j] == c;
      assert s[|s| - |a| + j] == c;
    }
  }

  /** The position of the first character satisfying `sep`, or -1. */
  function FirstWhere(s: string, sep: char -> bool): (k: int)
    ensures -1 <= k < |s|
    ensures k >= 0 ==> sep(s[k])
    ensures forall j :: 0 <= j < |s| && (k == -1 || j < k) ==> !sep(s[j])
  {
    if |s| == 0 then -1
    else if sep(s[0]) then 0
    else
      var k := FirstWhere(s[1..], sep);
      if k == -1 then -1 else k + 1
  }

  /** The end of the run of `sep` characters that starts at `k`. */
  function RunEnd(s: string, k: nat, sep: char -> bool): (e: nat)
    requires k <= |s|
    ensures k <= e <= |s|
    ensures forall j :: k <= j < e ==> sep(s[j])
    ensures e < |s| ==> !sep(s[e])
    decreases |s| - k
  {
    if k < |s| && sep(s[k]) then RunEnd(s, k + 1, sep) else k
  }

  /**
   * Regex.Split with a pattern `[class]+`: the pieces between maximal runs of
   * separator characters. A leading run yields a leading "" and a trailing run
   * a trailing "".
   */
  function SplitRuns(s: string, sep: char -> bool): (parts: seq<string>)
    ensures |parts| >= 1
    ensures forall i, j :: 0 <= i < |parts| && 0 <= j < |parts[i]| ==> !sep(parts[i][j])
    decreases |s|
  {
    var k := FirstWhere(s, sep);
    if k == -1 then [s]
    else
      var e := RunEnd(s, k, sep);
      [s[..k]] + SplitRuns(s[e..], sep)
  }

  /** Regex.Split(s, @"\s+"). */
  function SplitOnWhiteSpace(s: string): (parts: seq<string>)
    ensures |parts| >= 1
  {
    SplitRuns(s, IsWhiteSpace)
  }

  predicate IsEquals(c: char) { c == '=' }

  /** Regex.Split(s, @"\=+"). */
  function SplitOnEquals(s: string): (parts: seq<string>)
    ensures |parts| >= 1
  {
    SplitRuns(s, IsEquals)
  }

  /**
   * Separator-free fields joined by one separator character are what the
   * run split gives back, provided no field but the first and the last is empty.
   */
  lemma {:induction false} SplitRunsJoin(parts: seq<string>, sep: char -> bool, c: char)
    requires |parts| >= 1 && sep(c)
    requires forall i, j :: 0 <= i < |parts| && 0 <= j < |parts[i]| ==> !sep(parts[i][j])
    requires forall i :: 0 < i < |parts| - 1 ==> |parts[i]| > 0
    ensures SplitRuns(Join(parts, [c]), sep) == parts
  {
    var s := Join(parts, [c]);
    if |parts| == 1 {
      assert s == parts[0];
      assert FirstWhere(s, sep) == -1;
    } else {
      var rest := Join(parts[1..], [c]);
      assert s == parts[0] + ([c] + rest);
      assert forall j :: 0 <= j < |parts[0]| ==> !sep(parts[0][j]);
      JoinHead(parts[1..], c, sep);
      SplitRunsCons(parts[0], c, rest, sep);
      assert forall i, j :: 0 <= i < |parts[1..]| && 0 <= j < |parts[1..][i]| ==> parts[1..][i][j] == parts[i + 1][j];
      SplitRunsJoin(parts[1..], sep, c);
    }
  }

  /**
   * A separator-free piece, one separator and a rest that does not start
   * with a separator split into that piece and the rest's pieces.
   */
  lemma SplitRunsCons(a: string, c: char, rest: string, sep: char -> bool)
    requires sep(c)
    requires forall j :: 0 <= j < |a| ==> !sep(a[j])
    requires |rest| == 0 || !sep(rest[0])
    ensures SplitRuns(a + ([c] + rest), sep) == [a] + SplitRuns(rest, sep)
  {
    var s := a + ([c] + rest);
    var n := |a|;
    assert s[n] == c;
    assert forall j :: 0 <= j < n ==> s[j] == a[j];
    assert FirstWhere(s, sep) == n;
    assert RunEnd(s, n + 1, sep) == n + 1 by {
      if n + 1 < |s| {
        assert s[n + 1] == rest[0];
      }
    }
    assert s[..n] == a;
    assert s[n + 1..] == rest;
  }

  /** A join of separator-free parts whose first part is not empty (or alone) does not start with a separator. */
  lemma JoinHead(parts: seq<string>, c: char, sep: char -> bool)
    requires |parts| >= 1 && (|parts| == 1 || |parts[0]| > 0)
    requires forall i, j :: 0 <= i < |parts| && 0 <= j < |parts[i]| ==> !sep(parts[i][j])
    ensures |Join(parts, [c])| > 0 ==> !sep(Join(parts, [c])[0])
  {
    if |parts| > 1 {
      assert Join(parts, [c])[0] == parts[0][0];
    }
  }

  /**
   * Regex.Split with a literal pattern `p` (for example "@@"): the pieces
   * between leftmost non-overlapping occurrences.
   */
  function SplitOnString(s: string, p: string): (parts: seq<string>)
    requires |p| > 0
    ensures |parts| >= 1
    decreases |s|
  {
    var k := IndexOf(s, p);
    if k == -1 then [s] else [s[..k]] + SplitOnString(s[k + |p|..], p)
  }

  /** The first position `k >= from` where Regex `\..` matches: a '.' followed by a character other than a newline. */
  function DotAnyFrom(s: string, from: nat): (k: int)
    requires from <= |s|
    ensures k == -1 || (from <= k && k + 1 < |s| && s[k] == '.' && s[k + 1] != '\n')
    ensures forall j :: from <= j < |s| - 1 && (k == -1 || j < k) ==> !(s[j] == '.' && s[j + 1] != '\n')
    decreases |s| - from
  {
    if from + 1 >= |s| then -1
    else if s[from] == '.' && s[from + 1] != '\n' then from
    else DotAnyFrom(s, from + 1)
  }

  /** Regex.Split(s, @"\.."): the pieces between leftmost non-overlapping matches of a dot and the character after it. */
  function SplitOnDotAny(s: string): (parts: seq<string>)
    ensures |parts| >= 1
    decreases |s|
  {
    var k := DotAnyFrom(s, 0);
    if k == -1 then [s] else [s[..k]] + SplitOnDotAny(s[k + 2..])
  }

  /** The first whitespace-free run of a string after leading whitespace is dropped by Regex.Split. */
  lemma SplitOnWhiteSpaceNone(s: string)
    requires forall i :: 0 <= i < |s| ==> !IsWhiteSpace(s[i])
    ensures SplitOnWhiteSpace(s) == [s]
  {
  }

  // ---------------------------------------------------------------------------------
  // Integer conversion (Convert.ToInt32 / Convert.ToInt64, NumberStyles.Integer).

  const Int32Min: int := -0x8000_0000
  const Int32Max: int := 0x7FFF_FFFF
  const Int64Min: int := -0x8000_0000_0000_0000
  const Int64Max: int := 0x7FFF_FFFF_FFFF_FFFF

  /** The value of a sum in unchecked 32-bit two's-complement arithmetic (C#'s `++` on an int). */
  function Wrap32(v: int): (w: int)
    ensures Int32Min <= w <= Int32Max
    ensures Int32Min <= v <= Int32Max ==> w == v
  {
    (v - Int32Min) % 0x1_0000_0000 + Int32Min
  }

  /**
   * The blanks a number may have around it (NumberStyles.AllowLeadingWhite and
   * AllowTrailingWhite): U+0009 to U+000D and the space, but no other Unicode space.
   */
  predicate IsNumberBlank(c: char) {
    '\t' <= c <= '\r' || c == ' '
  }

  /** The text of a number without the blanks around it. */
  function StripBlanks(s: string): (t: string)
    ensures |t| <= |s|
    ensures forall c :: c in t ==> c in s
    ensures |t| > 0 ==> !IsNumberBlank(t[0]) && !IsNumberBlank(t[|t| - 1])
    ensures |s| > 0 && !IsNumberBlank(s[0]) && !IsNumberBlank(s[|s| - 1]) ==> t == s
    ensures |s| > 0 && !IsNumberBlank(s[0]) ==> |t| > 0 && t[0] == s[0]
    decreases |s|
  {
    if |s| > 0 && IsNumberBlank(s[0]) then StripBlanks(s[1..])
    else if |s| > 0 && IsNumberBlank(s[|s| - 1]) then StripBlanks(s[..|s| - 1])
    else s
  }

  function DigitValue(c: char): (v: nat)
    requires IsDigit(c)
    ensures v < 10
  {
    (c as int) - ('0' as int)
  }

  /** The value of a run of decimal digits. */
  function DigitsValue(ds: string): (v: nat)
    requires AllDigits(ds)
  {
    if |ds| == 0 then 0 else DigitsValue(ds[..|ds| - 1]) * 10 + DigitValue(ds[|ds| - 1])
  }

  /** The decimal digits of `n`, without leading zeros ("0" for zero). */
  function DecimalString(n: nat): (ds: string)
    ensures |ds| > 0 && AllDigits(ds)
  {
    var d := ['0' + (n % 10) as char];
    if n < 10 then d else DecimalString(n / 10) + d
  }

  lemma {:induction false} DecimalStringValue(n: nat)
    ensures DigitsValue(DecimalString(n)) == n
  {
    var ds := DecimalString(n);
    assert ds[..|ds| - 1] == (if n < 10 then [] else DecimalString(n / 10));
    if n >= 10 {
      DecimalStringValue(n / 10);
    }
  }

  /**
   * Convert.ToInt32 / Convert.ToInt64 (NumberStyles.Integer): optional
   * surrounding whitespace, an optional sign, then at least one decimal digit.
   * A value outside [lo, hi] is an overflow.
   */
  function ParseInteger(s: string, lo: int, hi: int): (r: Result<int>)
    ensures r.Ok? ==> lo <= r.value <= hi
  {
    var t := StripBlanks(s);
    var negative := |t| > 0 && t[0] == '-';
    var digits := if |t| > 0 && (t[0] == '-' || t[0] == '+') then t[1..] else t;
    if |digits| == 0 || !AllDigits(digits) then Err(Format("input string was not in a correct format"))
    else
      var magnitude: int := DigitsValue(digits);
      var v := if negative then -magnitude else magnitude;
      if v < lo || hi < v then Err(Overflow) else Ok(v)
  }

  function ToInt32(s: string): (r: Result<int>)
    ensures r.Ok? ==> Int32Min <= r.value <= Int32Max
  {
    ParseInteger(s, Int32Min, Int32Max)
  }

  function ToInt64(s: string): (r: Result<int>)
    ensures r.Ok? ==> Int64Min <= r.value <= Int64Max
  {
    ParseInteger(s, Int64Min, Int64Max)
  }

  /** Conversion reads back the decimal text of any number in range. */
  lemma ParseIntegerDecimal(n: nat, lo: int, hi: int)
    requires lo <= n <= hi
    ensures ParseInteger(DecimalString(n), lo, hi) == Ok(n)
  {
    var ds := DecimalString(n);
    assert !IsNumberBlank(ds[0]) && !IsNumberBlank(ds[|ds| - 1]);
    DecimalStringValue(n);
  }

  /** Conversion reads back the decimal text of a number written with a leading '+'. */
  lemma ParseIntegerPlus(n: nat, lo: int, hi: int)
    requires lo <= n <= hi
    ensures ParseInteger("+" + DecimalString(n), lo, hi) == Ok(n)
  {
    var ds := DecimalString(n);
    var s := "+" + ds;
    assert s[1..] == ds && s[|s| - 1] == ds[|ds| - 1];
    assert !IsNumberBlank(s[0]) && !IsNumberBlank(s[|s| - 1]);
    DecimalStringValue(n);
  }

  /** Conversion succeeds only on text holding at least one digit. */
  lemma ParseIntegerNeedsDigit(s: string, lo: int, hi: int)
    requires forall i :: 0 <= i < |s| ==> !IsDigit(s[i])
    ensures ParseInteger(s, lo, hi).Err?
  {
    var t := StripBlanks(s);
    if |t| > 0 {
      var digits := if t[0] == '-' || t[0] == '+' then t[1..] else t;
      if |digits| > 0 {
        assert digits[0] in t;
        assert !IsDigit(digits[0]);
      }
    }
  }

  // ---------------------------------------------------------------------------------
  // Ordinal ordering (String.CompareOrdinal).

  /** `a` sorts strictly before `b`, character by character, a proper prefix first. */
  predicate OrdinalLess(a: string, b: string) {
    if |a| == 0 then |b| > 0
    else if |b| == 0 then false
    else if a[0] != b[0] then a[0] < b[0]
    else OrdinalLess(a[1..], b[1..])
  }

  /** String.CompareOrdinal: -1, 0 or 1. */
  function CompareOrdinal(a: string, b: string): (c: int)
    ensures c == 0 <==> a == b
    ensures c < 0 <==> OrdinalLess(a, b)
    ensures c > 0 <==> OrdinalLess(b, a)
  {
    OrdinalTotal(a, b);
    OrdinalAsymmetric(a, b);
    OrdinalIrreflexive(a);
    if a == b then 0 else if OrdinalLess(a, b) then -1 else 1
  }

  lemma {:induction false} OrdinalIrreflexive(a: string)
    ensures !OrdinalLess(a, a)
  {
    if |a| > 0 {
      OrdinalIrreflexive(a[1..]);
    }
  }

  lemma {:induction false} OrdinalAsymmetric(a: string, b: string)
    ensures !(OrdinalLess(a, b) && OrdinalLess(b, a))
  {
    if |a| > 0 && |b| > 0 && a[0] == b[0] {
      OrdinalAsymmetric(a[1..], b[1..]);
    }
  }

  lemma {:induction false} OrdinalTotal(a: string, b: string)
    ensures a == b || OrdinalLess(a, b) || OrdinalLess(b, a)
  {
    if |a| > 0 && |b| > 0 && a[0] == b[0] {
      OrdinalTotal(a[1..], b[1..]);
      if a[1..] == b[1..] {
        assert a == [a[0]] + a[1..] && b == [b[0]] + b[1..];
      }
    }
  }

  lemma {:induction false} OrdinalTransitive(a: string, b: string, c: string)
    requires OrdinalLess(a, b) && OrdinalLess(b, c)
    ensures OrdinalLess(a, c)
  {
    if |a| > 0 && |b| > 0 && |c| > 0 && a[0] == b[0] && b[0] == c[0] {
      OrdinalTransitive(a[1..], b[1..], c[1..]);
    }
  }
}
