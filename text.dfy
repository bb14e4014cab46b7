/** The Kotlin standard-library string operations the app relies on, over
    Dafny strings (sequences of Unicode scalar values). */
module KotlinText {
  import opened Base

  predicate StartsWith(s: string, prefix: string) {
    |prefix| <= |s| && s[..|prefix|] == prefix
  }

  predicate EndsWith(s: string, suffix: string) {
    |suffix| <= |s| && s[|s| - |suffix|..] == suffix
  }

  /** `s.contains(part)`: `part` occurs somewhere in `s`. */
  predicate Contains(s: string, part: string)
    decreases |s|
  {
    StartsWith(s, part) || (|s| > 0 && Contains(s[1..], part))
  }

  /** `Char.isWhitespace()` on the JVM: the ASCII controls TAB to CR and
      FS to US, and every space, line and paragraph separator (Unicode
      categories Zs, Zl, Zp), the no-break spaces included. */
  predicate IsWhitespace(c: char) {
    var n := c as int;
    n == 0x20 || 0x09 <= n <= 0x0D || 0x1C <= n <= 0x1F || n == 0xA0 || n == 0x1680
    || 0x2000 <= n <= 0x200A || n == 0x2028 || n == 0x2029 || n == 0x202F || n == 0x205F
    || n == 0x3000
  }

  /** `s.trimStart()`: what is left after the longest all-whitespace prefix. */
  function TrimStart(s: string): (r: string)
    ensures |r| <= |s| && r == s[|s| - |r|..]
    ensures r == [] || !IsWhitespace(r[0])
    ensures forall i :: 0 <= i < |s| - |r| ==> IsWhitespace(s[i])
    decreases |s|
  {
    if |s| > 0 && IsWhitespace(s[0]) then TrimStart(s[1..]) else s
  }

  /** `s.trimEnd()`: what is left before the longest all-whitespace suffix. */
  function TrimEnd(s: string): (r: string)
    ensures |r| <= |s| && r == s[..|r|]
    ensures r == [] || !IsWhitespace(r[|r| - 1])
    ensures forall i :: |r| <= i < |s| ==> IsWhitespace(s[i])
    decreases |s|
  {
    if |s| > 0 && IsWhitespace(s[|s| - 1]) then TrimEnd(s[..|s| - 1]) else s
  }

  /** `s.trim()`. */
  function Trim(s: string): string {
    TrimEnd(TrimStart(s))
  }

  /** `s.isBlank()`: empty or whitespace only. */
  predicate IsBlank(s: string) {
    forall i :: 0 <= i < |s| ==> IsWhitespace(s[i])
  }

  /** `s.ifBlank { default }`. */
  function IfBlank(s: string, default: string): string {
    if IsBlank(s) then default else s
  }

  /** `s.removeSuffix(suffix)`. */
  function RemoveSuffix(s: string, suffix: string): (r: string)
    ensures EndsWith(s, suffix) ==> r + suffix == s
    ensures !EndsWith(s, suffix) ==> r == s
  {
    if EndsWith(s, suffix) then s[..|s| - |suffix|] else s
  }

  /** `s.replace(from, to)` where both are one-character strings. */
  function ReplaceChar(s: string, from: char, to: char): (r: string)
    ensures |r| == |s|
    ensures forall i :: 0 <= i < |s| ==> r[i] == (if s[i] == from then to else s[i])
    ensures from != to ==> from !in r
  {
    seq(|s|, i requires 0 <= i < |s| => if s[i] == from then to else s[i])
  }

  // ---------------------------------------------------------------- numbers

  predicate IsDigit(c: char) {
    '0' <= c <= '9'
  }

  predicate AllDigits(s: string) {
    forall i :: 0 <= i < |s| ==> IsDigit(s[i])
  }

  /** `s.replace(Regex("[^0-9]"), "")`: the ASCII digits of `s`, in order. */
  function DigitsOf(s: string): (r: string)
    ensures AllDigits(r) && |r| <= |s|
    decreases |s|
  {
    if |s| == 0 then "" else (if IsDigit(s[0]) then [s[0]] else "") + DigitsOf(s[1..])
  }

  function DigitValue(c: char): nat
    requires IsDigit(c)
  {
    c as int - '0' as int
  }

  /** The number a string of decimal digits denotes (0 for the empty string). */
  function DecimalValue(s: string): nat
    requires AllDigits(s)
    decreases |s|
  {
    if |s| == 0 then 0 else DecimalValue(s[..|s| - 1]) * 10 + DigitValue(s[|s| - 1])
  }

  /** `n.toString()` for a non-negative `n`: its shortest decimal numeral. */
  function NatToString(n: nat): (r: string)
    ensures |r| > 0 && AllDigits(r) && DecimalValue(r) == n
    ensures |r| > 1 ==> r[0] != '0'
    decreases n
  {
    var last := [(('0' as int) + n % 10) as char];
    if n < 10 then last
    else
      var prefix := NatToString(n / 10);
      assert (prefix + last)[..|prefix + last| - 1] == prefix;
      prefix + last
  }

  /** `i.toString()` for a Kotlin `Int`. */
  function IntToString(i: int): string {
    if i < 0 then "-" + NatToString(-i) else NatToString(i)
  }

  /** `s.toIntOrNull()`: an optional sign followed by at least one ASCII
      digit, whose value fits in a Kotlin `Int`; `None` for anything else. */
  function ToIntOrNull(s: string): (r: Option<int>)
    ensures r.Some? ==> IntMin <= r.value <= IntMax
  {
    if |s| == 0 then None
    else if s[0] == '-' || s[0] == '+' then
      if |s| == 1 || !AllDigits(s[1..]) then None
      else if s[0] == '-' then
        var v: int := DecimalValue(s[1..]);
        if v <= -IntMin then Some(-v) else None
      else
        if DecimalValue(s[1..]) <= IntMax then Some(DecimalValue(s[1..])) else None
    else if AllDigits(s) && DecimalValue(s) <= IntMax then Some(DecimalValue(s))
    else None
  }

  // ------------------------------------------------------- split and join

  /** `s.split(delimiter)` with a one-character delimiter and no limit: the
      pieces between delimiters, one more piece than there are delimiters. */
  function Split(s: string, delimiter: char): (r: seq<string>)
    ensures |r| >= 1
    ensures forall i :: 0 <= i < |r| ==> delimiter !in r[i]
    decreases |s|
  {
    if |s| == 0 then [""]
    else
      var rest := Split(s[1..], delimiter);
      if s[0] == delimiter then [""] + rest else [[s[0]] + rest[0]] + rest[1..]
  }

  /** `parts.joinToString(separator)`. */
  function JoinToString(parts: seq<string>, separator: string): string
    decreases |parts|
  {
    if |parts| == 0 then ""
    else if |parts| == 1 then parts[0]
    else parts[0] + separator + JoinToString(parts[1..], separator)
  }

  /** `parts.filter { it.isNotBlank() }`. */
  function FilterNotBlank(parts: seq<string>): (r: seq<string>)
    ensures forall x :: x in r <==> x in parts && !IsBlank(x)
    ensures |r| <= |parts|
    decreases |parts|
  {
    if |parts| == 0 then []
    else (if IsBlank(parts[0]) then [] else [parts[0]]) + FilterNotBlank(parts[1..])
  }

  // ---------------------------------------------------------------- lemmas

  /** `toIntOrNull` reads back every `Int` that `toString` prints. */
  lemma IntRoundTrip(i: int)
    requires IntMin <= i <= IntMax
    ensures ToIntOrNull(IntToString(i)) == Some(i)
  {
    if i < 0 {
      var t := NatToString(-i);
      assert ("-" + t)[1..] == t;
    } else {
      var t := NatToString(i);
      assert IsDigit(t[0]);
    }
  }

  lemma {:induction false} DigitsOfConcat(a: string, b: string)
    ensures DigitsOf(a + b) == DigitsOf(a) + DigitsOf(b)
    decreases |a|
  {
    if |a| > 0 {
      assert (a + b)[1..] == a[1..] + b;
      DigitsOfConcat(a[1..], b);
    } else {
      assert a + b == b;
    }
  }

  /** A text without ASCII digits has none to keep. */
  lemma {:induction false} NoDigits(s: string)
    requires forall i :: 0 <= i < |s| ==> !IsDigit(s[i])
    ensures DigitsOf(s) == ""
    decreases |s|
  {
    if |s| > 0 {
      NoDigits(s[1..]);
    }
  }

  lemma {:induction false} DigitsOfDigits(s: string)
    requires AllDigits(s)
    ensures DigitsOf(s) == s
    decreases |s|
  {
    if |s| > 0 {
      DigitsOfDigits(s[1..]);
    }
  }

  /** A prefix that ends in a non-whitespace character survives `trimEnd`. */
  lemma TrimEndKeepsPrefix(t: string, p: string)
    requires |p| > 0 && !IsWhitespace(p[|p| - 1]) && StartsWith(t, p)
    ensures StartsWith(TrimEnd(t), p)
  {
    var u := TrimEnd(t);
    assert t[..|p|][|p| - 1] == t[|p| - 1];
    assert !IsWhitespace(t[|p| - 1]);
    assert |p| <= |u|;
    assert u[..|p|] == t[..|p|];
  }

  /** A prefix of what `trimEnd` keeps is a prefix of the whole. */
  lemma TrimEndPrefix(t: string, p: string)
    requires StartsWith(TrimEnd(t), p)
    ensures StartsWith(t, p)
  {
    var u := TrimEnd(t);
    assert t[..|p|] == u[..|p|];
  }

  /** So `trim()` and `trimStart()` agree on whether a line starts with such a
      prefix. */
  lemma TrimPrefix(s: string, p: string)
    requires |p| > 0 && !IsWhitespace(p[|p| - 1])
    ensures StartsWith(Trim(s), p) <==> StartsWith(TrimStart(s), p)
  {
    var t := TrimStart(s);
    if StartsWith(t, p) {
      TrimEndKeepsPrefix(t, p);
    }
    if StartsWith(TrimEnd(t), p) {
      TrimEndPrefix(t, p);
    }
  }

  /** Trimming an indented token gives the token back. */
  lemma TrimIndented(indent: string, t: string)
    requires IsBlank(indent)
    requires |t| > 0 && !IsWhitespace(t[0]) && !IsWhitespace(t[|t| - 1])
    ensures TrimStart(indent + t) == t && Trim(indent + t) == t
  {
    var s := indent + t;
    assert s[|indent|..] == t;
  }

  /** Splitting a joined list gives the list back, provided no part holds the delimiter. */
  lemma {:induction false} SplitJoin(parts: seq<string>, delimiter: char)
    requires |parts| >= 1
    requires forall i :: 0 <= i < |parts| ==> delimiter !in parts[i]
    ensures Split(JoinToString(parts, [delimiter]), delimiter) == parts
    decreases |parts|
  {
    if |parts| == 1 {
      SplitNoDelimiter(parts[0], delimiter);
    } else {
      SplitJoin(parts[1..], delimiter);
      SplitAfterPart(parts[0], JoinToString(parts[1..], [delimiter]), delimiter);
      assert parts == [parts[0]] + parts[1..];
    }
  }

  /** Joining the pieces of a split gives the string back. */
  lemma {:induction false} JoinSplit(s: string, delimiter: char)
    ensures JoinToString(Split(s, delimiter), [delimiter]) == s
    decreases |s|
  {
    if |s| > 0 {
      var rest := Split(s[1..], delimiter);
      JoinSplit(s[1..], delimiter);
      if s[0] == delimiter {
        assert ([""] + rest)[1..] == rest;
        assert s == [delimiter] + s[1..];
      } else {
        var r := [[s[0]] + rest[0]] + rest[1..];
        assert r[1..] == rest[1..];
        if |rest| == 1 {
          assert s == [s[0]] + s[1..];
        } else {
          assert rest == [rest[0]] + rest[1..];
          assert JoinToString(rest, [delimiter]) == rest[0] + [delimiter] + JoinToString(rest[1..], [delimiter]);
          assert s == [s[0]] + s[1..];
        }
      }
    }
  }

  lemma {:induction false} SplitNoDelimiter(s: string, delimiter: char)
    requires delimiter !in s
    ensures Split(s, delimiter) == [s]
    decreases |s|
  {
    if |s| > 0 {
      SplitNoDelimiter(s[1..], delimiter);
      assert s == [s[0]] + s[1..];
    }
  }

  lemma {:induction false} SplitAfterPart(part: string, rest: string, delimiter: char)
    requires delimiter !in part
    ensures Split(part + [delimiter] + rest, delimiter) == [part] + Split(rest, delimiter)
    decreases |part|
  {
    var s := part + [delimiter] + rest;
    if |part| == 0 {
      assert s[1..] == rest;
    } else {
      assert s[1..] == part[1..] + [delimiter] + rest;
      SplitAfterPart(part[1..], rest, delimiter);
      assert [s[0]] + part[1..] == part;
    }
  }

  /** Non-blank parts pass `filter { it.isNotBlank() }` unchanged. */
  /** The filter distributes over concatenation: parts are judged one by
      one and each kept part stays where it was, so order and repetitions of
      the kept parts survive. */
  lemma {:induction false} FilterNotBlankAppend(a: seq<string>, b: seq<string>)
    ensures FilterNotBlank(a + b) == FilterNotBlank(a) + FilterNotBlank(b)
    decreases |a|
  {
    if |a| == 0 {
      assert a + b == b;
    } else {
      assert (a + b)[0] == a[0];
      assert (a + b)[1..] == a[1..] + b;
      FilterNotBlankAppend(a[1..], b);
    }
  }

  /** A single part is dropped exactly when it is blank. */
  lemma FilterNotBlankOne(x: string)
    ensures IsBlank(x) ==> FilterNotBlank([x]) == []
    ensures !IsBlank(x) ==> FilterNotBlank([x]) == [x]
  {
    assert [x][1..] == [];
  }

  /** Every non-blank part is kept as many times as it occurs, and every blank
      one never. */
  lemma {:induction false} FilterNotBlankCounts(parts: seq<string>)
    ensures forall x :: multiset(FilterNotBlank(parts))[x] == (if IsBlank(x) then 0 else multiset(parts)[x])
    decreases |parts|
  {
    if |parts| > 0 {
      FilterNotBlankCounts(parts[1..]);
      assert parts == [parts[0]] + parts[1..];
    }
  }

  lemma {:induction false} FilterNotBlankKeeps(parts: seq<string>)
    requires forall i :: 0 <= i < |parts| ==> !IsBlank(parts[i])
    ensures FilterNotBlank(parts) == parts
    decreases |parts|
  {
    if |parts| > 0 {
      FilterNotBlankKeeps(parts[1..]);
      assert parts == [parts[0]] + parts[1..];
    }
  }
}
