/** The parts of Python's `str` that the inference script relies on: `isspace`
    (which is also what `\s` matches in a str regular expression), `strip`,
    `upper`, the substring test `in`, `"\n".join` and the decimal rendering of a
    natural number; and `Split`, the splitting at newlines that undoes the join,
    with which the prompt's lines are described. Strings are sequences of Unicode scalar values,
    as Python's are sequences of code points. */
module Text {

  /** Python's `str.isspace()`: the characters of Unicode bidirectional class
      WS, B or S, or of general category Zs. */
  predicate IsSpace(c: char) {
    var n := c as int;
    (9 <= n <= 13) || (28 <= n <= 32) || n == 0x85 || n == 0xA0 || n == 0x1680
    || (0x2000 <= n <= 0x200A) || n == 0x2028 || n == 0x2029 || n == 0x202F
    || n == 0x205F || n == 0x3000
  }

  predicate IsDigit(c: char) {
    '0' <= c <= '9'
  }

  /** `s.lstrip()`: the suffix of `s` left after dropping leading white space. */
  function TrimStart(s: string): (r: string)
    ensures |r| <= |s| && r == s[|s| - |r|..]
    ensures forall k :: 0 <= k < |s| - |r| ==> IsSpace(s[k])
    ensures r == [] || !IsSpace(r[0])
  {
    if |s| > 0 && IsSpace(s[0]) then TrimStart(s[1..]) else s
  }

  /** `s.rstrip()`: the prefix of `s` left after dropping trailing white space. */
  function TrimEnd(s: string): (r: string)
    ensures |r| <= |s| && r == s[..|r|]
    ensures forall k :: |r| <= k < |s| ==> IsSpace(s[k])
    ensures r == [] || !IsSpace(r[|r| - 1])
  {
    if |s| > 0 && IsSpace(s[|s| - 1]) then TrimEnd(s[..|s| - 1]) else s
  }

  /** `s.strip()`: neither starts nor ends with white space. */
  function Trim(s: string): (r: string)
    ensures |r| <= |s|
    ensures r == [] || (!IsSpace(r[0]) && !IsSpace(r[|r| - 1]))
  {
    TrimEnd(TrimStart(s))
  }

  /** How many leading white-space characters `strip()` removes. */
  function Lead(s: string): nat {
    |s| - |TrimStart(s)|
  }

  /** `Trim(s)` is the slice of `s` that starts after the leading white space. */
  lemma {:induction false} TrimSlice(s: string)
    ensures Lead(s) + |Trim(s)| <= |s|
    ensures Trim(s) == s[Lead(s)..Lead(s) + |Trim(s)|]
  {
    var t := TrimStart(s);
    var lead := |s| - |t|;
    var r := TrimEnd(t);
    assert Trim(s) == r;
    SliceOfSuffix(s, lead, |r|);
  }

  lemma SliceOfSuffix<T>(s: seq<T>, a: nat, n: nat)
    requires a + n <= |s|
    ensures s[a..][..n] == s[a..a + n]
  {
  }

  /** What `strip()` removes, before and after that slice, is white space. */
  lemma {:induction false} TrimDropsSpace(s: string)
    ensures forall k :: 0 <= k < Lead(s) ==> IsSpace(s[k])
    ensures forall k :: Lead(s) + |Trim(s)| <= k < |s| ==> IsSpace(s[k])
  {
    var t := TrimStart(s);
    var lead := |s| - |t|;
    var r := TrimEnd(t);
    assert Trim(s) == r;
    forall k | lead + |r| <= k < |s| ensures IsSpace(s[k]) {
      assert IsSpace(t[k - lead]);
    }
  }

  /** A string with no white space at either end is its own `strip()`. */
  lemma TrimIdentity(s: string)
    requires s == [] || (!IsSpace(s[0]) && !IsSpace(s[|s| - 1]))
    ensures Trim(s) == s
  {
  }

  lemma TrimIdempotent(s: string)
    ensures Trim(Trim(s)) == Trim(s)
  {
    TrimIdentity(Trim(s));
  }

  /** Upper-casing of one character as Python's `str.upper` does it, for the ASCII
      letters and for every character whose upper-case form contains an ASCII
      letter (the long s, the dotless i, and the unconditional multi-character
      mappings of Unicode's SpecialCasing). Every other character is kept: its
      upper-case form, whatever it is, holds no ASCII character, so keeping it
      cannot change whether an ASCII word occurs in the upper-cased text. */
  function UpperChar(c: char): string {
    if 'a' <= c <= 'z' then [(c as int - 32) as char]
    else if IsAscii(c) then [c]
    else match c
      case '\U{00DF}' => "SS"
      case '\U{0131}' => "I"
      case '\U{0149}' => "\U{02BC}N"
      case '\U{017F}' => "S"
      case '\U{01F0}' => "J\U{030C}"
      case '\U{1E96}' => "H\U{0331}"
      case '\U{1E97}' => "T\U{0308}"
      case '\U{1E98}' => "W\U{030A}"
      case '\U{1E99}' => "Y\U{030A}"
      case '\U{1E9A}' => "A\U{02BE}"
      case '\U{FB00}' => "FF"
      case '\U{FB01}' => "FI"
      case '\U{FB02}' => "FL"
      case '\U{FB03}' => "FFI"
      case '\U{FB04}' => "FFL"
      case '\U{FB05}' => "ST"
      case '\U{FB06}' => "ST"
      case _ => [c]
  }

  /** `s.upper()`, character by character. */
  function Upper(s: string): string {
    if |s| == 0 then "" else UpperChar(s[0]) + Upper(s[1..])
  }

  lemma {:induction false} UpperAppend(a: string, b: string)
    ensures Upper(a + b) == Upper(a) + Upper(b)
  {
    if |a| == 0 {
      assert a + b == b;
    } else {
      assert (a + b)[1..] == a[1..] + b;
      UpperAppend(a[1..], b);
    }
  }

  predicate IsAscii(c: char) {
    c as int < 128
  }

  /** The ASCII upper-case letter of an ASCII lower-case letter; any other
      character unchanged. */
  function AsciiUpper(c: char): char {
    if 'a' <= c <= 'z' then (c as int - 32) as char else c
  }

  /** On ASCII text `Upper` maps each character to its ASCII upper case, so it
      keeps the length and the positions. */
  lemma {:induction false} UpperOfAscii(s: string)
    requires forall k :: 0 <= k < |s| ==> IsAscii(s[k])
    ensures |Upper(s)| == |s|
    ensures forall k :: 0 <= k < |s| ==> Upper(s)[k] == AsciiUpper(s[k])
  {
    if |s| > 0 {
      UpperOfAscii(s[1..]);
    }
  }

  /** Text of capital letters, digits, spaces and underscores is its own upper case. */
  lemma {:induction false} UpperOfCapitals(s: string)
    requires forall k :: 0 <= k < |s| ==> IsAscii(s[k]) && !('a' <= s[k] <= 'z')
    ensures Upper(s) == s
  {
    if |s| > 0 {
      UpperOfCapitals(s[1..]);
      assert s == [s[0]] + s[1..];
    }
  }

  predicate StartsWith(s: string, w: string) {
    |w| <= |s| && s[..|w|] == w
  }

  /** `w` occurs in `s` starting at position `i`. */
  predicate OccursAt(s: string, w: string, i: int) {
    0 <= i <= |s| - |w| && s[i..i + |w|] == w
  }

  /** Python's `w in s`. */
  predicate Contains(s: string, w: string)
    decreases |s|
  {
    StartsWith(s, w) || (|s| > 0 && Contains(s[1..], w))
  }

  /** `Contains` is exactly "`w` occurs at some position of `s`". */
  lemma {:induction false} ContainsIff(s: string, w: string)
    ensures Contains(s, w) <==> exists i :: OccursAt(s, w, i)
  {
    if StartsWith(s, w) {
      assert OccursAt(s, w, 0);
    } else if |s| > 0 {
      ContainsIff(s[1..], w);
      if Contains(s[1..], w) {
        var i :| OccursAt(s[1..], w, i);
        assert s[i + 1..i + 1 + |w|] == s[1..][i..i + |w|];
        assert OccursAt(s, w, i + 1);
      }
      if i :| OccursAt(s, w, i) {
        assert i > 0;
        assert s[1..][i - 1..i - 1 + |w|] == s[i..i + |w|];
        assert OccursAt(s[1..], w, i - 1);
      }
    }
  }

  lemma SliceOfSlice(s: string, lo: int, hi: int, a: int, b: int)
    requires 0 <= lo <= hi <= |s| && 0 <= a <= b <= hi - lo
    ensures s[lo..hi][a..b] == s[lo + a..lo + b]
  {
    forall k | 0 <= k < b - a ensures s[lo..hi][a..b][k] == s[lo + a..lo + b][k] {
      assert s[lo..hi][a..b][k] == s[lo + a + k];
    }
  }

  lemma ContainsAt(s: string, w: string, i: int)
    requires OccursAt(s, w, i)
    ensures Contains(s, w)
  {
    ContainsIff(s, w);
  }

  /** A word whose first letter does not occur in `s` does not occur in `s`. */
  lemma MissingFirstLetter(s: string, w: string)
    requires |w| > 0 && w[0] !in s
    ensures !Contains(s, w)
  {
    ContainsIff(s, w);
    forall i | 0 <= i <= |s| - |w| ensures !OccursAt(s, w, i) {
      assert s[i..i + |w|][0] == s[i];
    }
  }

  /** An occurrence of a longer word is also an occurrence of every word it contains. */
  lemma ContainsTransitive(s: string, v: string, w: string)
    requires Contains(s, v) && Contains(v, w)
    ensures Contains(s, w)
  {
    ContainsIff(s, v);
    ContainsIff(v, w);
    var i :| OccursAt(s, v, i);
    var j :| OccursAt(v, w, j);
    SliceOfSlice(s, i, i + |v|, j, j + |w|);
    ContainsAt(s, w, i + j);
  }

  /** A word found in a slice is found in the whole string. */
  lemma ContainsSlice(s: string, lo: int, hi: int, w: string)
    requires 0 <= lo <= hi <= |s| && Contains(s[lo..hi], w)
    ensures Contains(s, w)
  {
    ContainsIff(s[lo..hi], w);
    var i :| OccursAt(s[lo..hi], w, i);
    SliceOfSlice(s, lo, hi, i, i + |w|);
    ContainsAt(s, w, lo + i);
  }

  /** `"\n".join(lines)`. */
  function Join(lines: seq<string>): string {
    if |lines| == 0 then ""
    else if |lines| == 1 then lines[0]
    else lines[0] + "\n" + Join(lines[1..])
  }

  /** `s.split("\n")`: never empty, no piece holds a newline, and joining the
      pieces again gives back `s`. */
  function Split(s: string): (r: seq<string>)
    ensures |r| >= 1
    ensures forall k :: 0 <= k < |r| ==> '\n' !in r[k]
    ensures Join(r) == s
  {
    if |s| == 0 then [""]
    else
      var rest := Split(s[1..]);
      if s[0] == '\n' then
        assert s == "" + "\n" + Join(rest);
        [""] + rest
      else
        var r := [[s[0]] + rest[0]] + rest[1..];
        assert r[1..] == rest[1..];
        assert s == [s[0]] + s[1..];
        r
  }

  lemma {:induction false} SplitNoNewline(s: string)
    requires '\n' !in s
    ensures Split(s) == [s]
  {
    if |s| > 0 {
      SplitNoNewline(s[1..]);
      assert [s[0]] + s[1..] == s;
    }
  }

  lemma {:induction false} SplitAfterLine(a: string, rest: string)
    requires '\n' !in a
    ensures Split(a + "\n" + rest) == [a] + Split(rest)
  {
    if |a| == 0 {
      assert a + "\n" + rest == "\n" + rest;
      assert ("\n" + rest)[1..] == rest;
    } else {
      assert (a + "\n" + rest)[1..] == a[1..] + "\n" + rest;
      SplitAfterLine(a[1..], rest);
      assert [a[0]] + a[1..] == a;
    }
  }

  /** Splitting at newlines undoes `Join` for a non-empty sequence of lines
      that hold no newline themselves. */
  lemma {:induction false} SplitJoin(lines: seq<string>)
    requires |lines| >= 1
    requires forall k :: 0 <= k < |lines| ==> '\n' !in lines[k]
    ensures Split(Join(lines)) == lines
  {
    if |lines| == 1 {
      SplitNoNewline(lines[0]);
    } else {
      SplitJoin(lines[1..]);
      SplitAfterLine(lines[0], Join(lines[1..]));
      assert [lines[0]] + lines[1..] == lines;
    }
  }

  function DigitChar(d: nat): char
    requires d < 10
  {
    ('0' as int + d) as char
  }

  function DigitValue(c: char): nat
    requires IsDigit(c)
  {
    c as int - '0' as int
  }

  /** The number a string of decimal digits denotes. */
  function DigitsValue(s: string): nat
    requires forall k :: 0 <= k < |s| ==> IsDigit(s[k])
  {
    if |s| == 0 then 0 else 10 * DigitsValue(s[..|s| - 1]) + DigitValue(s[|s| - 1])
  }

  /** `str(n)` for a natural number: decimal digits without a leading zero that
      denote `n`. */
  function Decimal(n: nat): (r: string)
    ensures |r| >= 1 && forall k :: 0 <= k < |r| ==> IsDigit(r[k])
    ensures |r| > 1 ==> r[0] != '0'
    ensures DigitsValue(r) == n
  {
    if n < 10 then [DigitChar(n)]
    else
      var r := Decimal(n / 10) + [DigitChar(n % 10)];
      assert r[..|r| - 1] == Decimal(n / 10);
      r
  }
}
