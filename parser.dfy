/** The response parser, `parse_output`: strip code fences, decode the rest as
    JSON and normalise its fields, or, when the text does not decode, guess the
    label from the words in it. */
module Parser {
  import opened Text
  import opened JsonValue

  const SARCASM := "SARCASM"
  const NOT_SARCASM := "NOT_SARCASM"
  const UNKNOWN := "UNKNOWN"

  /** Confidence when the decoded object has none, and on the fallback path. */
  const DEFAULT_CONFIDENCE := 50
  /** Reasoning when the decoded object has none. */
  const NO_REASONING := "No reasoning provided"
  /** Reasoning on the fallback path, before the raw text. */
  const PARSE_ERROR := "Parse error. Raw: "
  /** How much of the raw text the fallback reasoning keeps. */
  const RAW_LIMIT := 200

  /** The most digits `int()` converts from text, the default limit of
      `sys.set_int_max_str_digits` since Python 3.11. */
  const MAX_INT_DIGITS := 4300
  /** How much of the text's `repr` an `invalid literal for int()` message keeps. */
  const REPR_LIMIT := 200

  const FENCE := "```"
  const JSON_FENCE := "```json"

  /** What `parse_output` returns, as far as the driver reads it. */
  datatype ModelOutput = ModelOutput(prediction: string, confidence: int, reasoning: Json)

  /** The exceptions other than a decode error that can escape `parse_output`. */
  datatype ParseFailure =
    | NotAnObject(found: Json)          // `result.get` on a decoded value that is not a dict
    | PredictionNotText(found: Json)    // `.upper()` on a `prediction` that is not a str
    | ConfidenceNotInteger(found: Json) // `int(...)` on a `confidence` it cannot convert

  datatype Parsed = Output(output: ModelOutput) | Raised(failure: ParseFailure)

  /** `str(e)` for each escaping exception, in CPython's wording. */
  function Message(f: ParseFailure): string {
    match f
    case NotAnObject(j) => "'" + TypeName(j) + "' object has no attribute 'get'"
    case PredictionNotText(j) => "'" + TypeName(j) + "' object has no attribute 'upper'"
    case ConfidenceNotInteger(j) =>
      match j
      case JString(s) =>
        var body := Unsigned(IntStrip(s));
        if DigitGroups(body) && |GroupDigits(body)| > MAX_INT_DIGITS then
          "Exceeds the limit (4300 digits) for integer string conversion: value has "
          + Decimal(|GroupDigits(body)|) + " digits; use sys.set_int_max_str_digits() to increase the limit"
        else
          var repr := "'" + s + "'";
          "invalid literal for int() with base 10: " + repr[..if |repr| < REPR_LIMIT then |repr| else REPR_LIMIT]
      case JNonFinite(isNaN) =>
        if isNaN then "cannot convert float NaN to integer" else "cannot convert float infinity to integer"
      case _ => "int() argument must be a string, a bytes-like object or a real number, not '" + TypeName(j) + "'"
  }

  // ---------------------------------------------------------------------------
  // Fence stripping: re.sub(r'```json\s*|```', '', text).strip()
  // ---------------------------------------------------------------------------

  /** Removes, scanning left to right, every "```json" together with the white
      space after it and every other "```". */
  function StripFences(s: string): (r: string)
    ensures |r| <= |s|
    decreases |s|
  {
    if |s| == 0 then ""
    else if StartsWith(s, JSON_FENCE) then StripFences(TrimStart(s[|JSON_FENCE|..]))
    else if StartsWith(s, FENCE) then StripFences(s[|FENCE|..])
    else [s[0]] + StripFences(s[1..])
  }

  /** The text `json.loads` is given. */
  function Clean(text: string): string {
    Trim(StripFences(text))
  }

  lemma StripFencesKeepsFirst(s: string)
    requires |s| > 0 && s[0] != '`'
    ensures StripFences(s) == [s[0]] + StripFences(s[1..])
  {
    assert !StartsWith(s, JSON_FENCE);
    assert !StartsWith(s, FENCE);
  }

  /** The text starts with two backticks. */
  predicate TwoTicks(s: string) {
    |s| >= 2 && s[0] == '`' && s[1] == '`'
  }

  /** Text that does not start with two backticks does not give a result that does. */
  lemma NoLeadingTicks(s: string)
    requires !TwoTicks(s)
    ensures !TwoTicks(StripFences(s))
  {
    if |s| > 0 {
      if s[0] != '`' {
        StripFencesKeepsFirst(s);
      } else {
        assert !StartsWith(s, JSON_FENCE) by {
          if |s| >= |JSON_FENCE| { assert s[..|JSON_FENCE|][1] == s[1]; }
        }
        assert !StartsWith(s, FENCE) by {
          if |s| >= |FENCE| { assert s[..|FENCE|][1] == s[1]; }
        }
        assert StripFences(s) == [s[0]] + StripFences(s[1..]);
        if |s| > 1 {
          StripFencesKeepsFirst(s[1..]);
        }
      }
    }
  }

  /** After a backtick that does not open a fence, two more backticks do not follow. */
  lemma TickWithoutFence(s: string)
    requires |s| > 0 && s[0] == '`' && !StartsWith(s, FENCE)
    ensures !TwoTicks(s[1..])
  {
    if |s| >= 3 {
      assert s[..3] == [s[0], s[1], s[2]];
    }
  }

  /** No code fence survives fence stripping, not even one formed by joining the
      pieces around a removed fence. */
  lemma {:induction false} StripFencesRemovesFences(s: string)
    ensures !Contains(StripFences(s), FENCE)
    decreases |s|
  {
    if |s| == 0 {
    } else if StartsWith(s, JSON_FENCE) {
      StripFencesRemovesFences(TrimStart(s[|JSON_FENCE|..]));
    } else if StartsWith(s, FENCE) {
      StripFencesRemovesFences(s[|FENCE|..]);
    } else {
      StripFencesRemovesFences(s[1..]);
      if s[0] == '`' {
        TickWithoutFence(s);
        NoLeadingTicks(s[1..]);
      }
      PrependNoFence(s[0], StripFences(s[1..]));
    }
  }

  /** Putting a character in front of fence-free text makes a fence only when
      the character is a backtick and the text starts with two. */
  lemma PrependNoFence(c: char, rest: string)
    requires !Contains(rest, FENCE)
    requires c == '`' ==> !TwoTicks(rest)
    ensures !Contains([c] + rest, FENCE)
  {
    var r := [c] + rest;
    assert r[1..] == rest;
    if |r| >= 3 {
      assert r[..3] == [c, rest[0], rest[1]];
    }
  }

  /** Text without a code fence passes fence stripping unchanged. */
  lemma {:induction false} StripFencesIdentity(s: string)
    requires !Contains(s, FENCE)
    ensures StripFences(s) == s
    decreases |s|
  {
    if |s| > 0 {
      assert !StartsWith(s, JSON_FENCE);
      StripFencesIdentity(s[1..]);
      assert [s[0]] + s[1..] == s;
    }
  }

  /** The text handed to the decoder holds no code fence and has no white space
      at either end. */
  lemma CleanIsBare(text: string)
    ensures !Contains(Clean(text), FENCE)
    ensures var c := Clean(text); c == [] || (!IsSpace(c[0]) && !IsSpace(c[|c| - 1]))
  {
    var s := StripFences(text);
    StripFencesRemovesFences(text);
    TrimSlice(s);
    if Contains(Clean(text), FENCE) {
      ContainsSlice(s, Lead(s), Lead(s) + |Trim(s)|, FENCE);
    }
  }

  /** Cleaning twice is cleaning once. */
  lemma CleanIdempotent(text: string)
    ensures Clean(Clean(text)) == Clean(text)
  {
    CleanIsBare(text);
    StripFencesIdentity(Clean(text));
    TrimIdempotent(StripFences(text));
  }

  // ---------------------------------------------------------------------------
  // int(...) on a decoded value
  // ---------------------------------------------------------------------------

  /** `int(x)` for a finite float: rounds toward zero. */
  function Truncate(x: real): (r: int)
    ensures x >= 0.0 ==> r as real <= x < r as real + 1.0
    ensures x < 0.0 ==> r as real - 1.0 < x <= r as real
  {
    if x >= 0.0 then x.Floor else -((-x).Floor)
  }

  /** Decimal digits with single underscores between them, as `int()` accepts. */
  predicate DigitGroups(b: string) {
    && |b| > 0 && IsDigit(b[0]) && IsDigit(b[|b| - 1])
    && forall k :: 0 <= k < |b| ==> DigitOrJoin(b, k)
  }

  /** Position `k` of `b` holds a digit, or an underscore followed by a digit. */
  predicate DigitOrJoin(b: string, k: int)
    requires 0 <= k < |b|
  {
    IsDigit(b[k]) || (b[k] == '_' && k + 1 < |b| && IsDigit(b[k + 1]))
  }

  /** The digits of `b` with the underscores left out. */
  function Digits(b: string): (r: string)
    requires forall k :: 0 <= k < |b| ==> IsDigit(b[k]) || b[k] == '_'
    ensures forall k :: 0 <= k < |r| ==> IsDigit(r[k])
    ensures '_' !in b ==> r == b
  {
    if |b| == 0 then "" else (if b[0] == '_' then "" else [b[0]]) + Digits(b[1..])
  }

  /** Digits and underscores only. */
  predicate DigitChars(b: string) {
    forall k :: 0 <= k < |b| ==> IsDigit(b[k]) || b[k] == '_'
  }

  lemma DigitCharsAppend(a: string, b: string)
    requires DigitChars(a) && DigitChars(b)
    ensures DigitChars(a + b)
  {
    forall k | 0 <= k < |a + b| ensures IsDigit((a + b)[k]) || (a + b)[k] == '_' {
      if k < |a| {
        assert (a + b)[k] == a[k];
      } else {
        assert (a + b)[k] == b[k - |a|];
      }
    }
  }

  /** Dropping underscores works piece by piece. */
  lemma {:induction false} DigitsAppend(a: string, b: string)
    requires DigitChars(a) && DigitChars(b)
    ensures DigitChars(a + b)
    ensures Digits(a + b) == Digits(a) + Digits(b)
    decreases |a|
  {
    DigitCharsAppend(a, b);
    if |a| == 0 {
      assert a + b == b;
    } else {
      var rest := a[1..];
      assert DigitChars(rest) by {
        forall k | 0 <= k < |rest| ensures IsDigit(rest[k]) || rest[k] == '_' {
          assert rest[k] == a[k + 1];
        }
      }
      assert (a + b)[1..] == rest + b;
      DigitsAppend(rest, b);
    }
  }

  /** An underscore is dropped; a digit is kept. */
  lemma DigitsOfOne(c: char)
    requires IsDigit(c) || c == '_'
    ensures Digits([c]) == (if c == '_' then "" else [c])
  {
    assert [c][1..] == [];
  }

  /** Two runs of digits joined by an underscore are digit groups whose
      digits are the two runs together. */
  lemma JoinedGroups(a: string, b: string)
    requires 0 < |a| && forall k :: 0 <= k < |a| ==> IsDigit(a[k])
    requires 0 < |b| && forall k :: 0 <= k < |b| ==> IsDigit(b[k])
    ensures DigitGroups(a + "_" + b)
    ensures GroupDigits(a + "_" + b) == a + b
  {
    JoinIsGroups(a, b);
    JoinDigits(a, b);
  }

  lemma JoinIsGroups(a: string, b: string)
    requires 0 < |a| && forall k :: 0 <= k < |a| ==> IsDigit(a[k])
    requires 0 < |b| && forall k :: 0 <= k < |b| ==> IsDigit(b[k])
    ensures DigitGroups(a + "_" + b)
  {
    var s := a + "_" + b;
    forall k | 0 <= k < |s| ensures DigitOrJoin(s, k) {
      if k < |a| {
        assert s[k] == a[k];
      } else if k == |a| {
        assert s[k + 1] == b[0];
      } else {
        assert s[k] == b[k - |a| - 1];
      }
    }
    assert s[|s| - 1] == b[|b| - 1];
  }

  lemma JoinDigits(a: string, b: string)
    requires 0 < |a| && forall k :: 0 <= k < |a| ==> IsDigit(a[k])
    requires 0 < |b| && forall k :: 0 <= k < |b| ==> IsDigit(b[k])
    ensures DigitChars(a + "_" + b)
    ensures Digits(a + "_" + b) == a + b
  {
    var u := "_";
    assert DigitChars(a) && DigitChars(u) && DigitChars(b);
    DigitsAppend(a, u);
    DigitsAppend(a + u, b);
    DigitsOfOne('_');
    PlainDigits(a);
    PlainDigits(b);
    assert Digits(a + u) == a;
  }

  /** `int()` ignores an underscore between digits: `int("1_000") == int("1000")`. */
  lemma UnderscoreKeepsValue(a: string, b: string)
    requires 0 < |a| && forall k :: 0 <= k < |a| ==> IsDigit(a[k])
    requires 0 < |b| && forall k :: 0 <= k < |b| ==> IsDigit(b[k])
    requires |a| + |b| <= MAX_INT_DIGITS
    ensures IntLiteral(a + "_" + b) == IntLiteral(a + b) == Some(DigitsValue(a + b) as int)
  {
    var s := a + "_" + b;
    assert s[0] == a[0] && s[|s| - 1] == b[|b| - 1];
    IntStripIdentity(s);
    JoinedValue(a, b);
    PlainJoin(a, b);
  }

  lemma JoinedValue(a: string, b: string)
    requires 0 < |a| && forall k :: 0 <= k < |a| ==> IsDigit(a[k])
    requires 0 < |b| && forall k :: 0 <= k < |b| ==> IsDigit(b[k])
    requires |a| + |b| <= MAX_INT_DIGITS
    ensures SignedValue(a + "_" + b) == Some(DigitsValue(a + b) as int)
  {
    var s := a + "_" + b;
    assert s[0] == a[0];
    assert Unsigned(s) == s;
    JoinedGroups(a, b);
  }

  lemma PlainJoin(a: string, b: string)
    requires 0 < |a| && forall k :: 0 <= k < |a| ==> IsDigit(a[k])
    requires 0 < |b| && forall k :: 0 <= k < |b| ==> IsDigit(b[k])
    requires |a| + |b| <= MAX_INT_DIGITS
    ensures IntLiteral(a + b) == Some(DigitsValue(a + b) as int)
  {
    var d := a + b;
    assert forall k :: 0 <= k < |d| ==> IsDigit(d[k]) by {
      forall k | 0 <= k < |d| ensures IsDigit(d[k]) {
        if k < |a| { assert d[k] == a[k]; } else { assert d[k] == b[k - |a|]; }
      }
    }
    IntStripIdentity(d);
    UnsignedValue(d);
  }

  /** The digits of a run of digit groups. */
  function GroupDigits(b: string): (r: string)
    requires DigitGroups(b)
    ensures forall k :: 0 <= k < |r| ==> IsDigit(r[k])
  {
    assert forall k :: 0 <= k < |b| ==> IsDigit(b[k]) || b[k] == '_' by {
      forall k | 0 <= k < |b| ensures IsDigit(b[k]) || b[k] == '_' {
        assert DigitOrJoin(b, k);
      }
    }
    Digits(b)
  }

  /** The white space `int()` skips around a literal: tab, line feed, vertical
      tab, form feed, carriage return and space, and every non-ASCII character
      that `str.isspace` accepts (CPython turns those into spaces first). The
      separators U+001C to U+001F, which `strip()` removes, are not skipped. */
  predicate IsIntSpace(c: char) {
    IsSpace(c) && !(0x1C <= c as int <= 0x1F)
  }

  /** The suffix of `s` left after the white space `int()` skips at the start. */
  function IntStripStart(s: string): (r: string)
    ensures |r| <= |s| && r == s[|s| - |r|..]
    ensures forall k :: 0 <= k < |s| - |r| ==> IsIntSpace(s[k])
    ensures r == [] || !IsIntSpace(r[0])
  {
    if |s| > 0 && IsIntSpace(s[0]) then IntStripStart(s[1..]) else s
  }

  /** The prefix of `s` left after the white space `int()` skips at the end. */
  function IntStripEnd(s: string): (r: string)
    ensures |r| <= |s| && r == s[..|r|]
    ensures forall k :: |r| <= k < |s| ==> IsIntSpace(s[k])
    ensures r == [] || !IsIntSpace(r[|r| - 1])
  {
    if |s| > 0 && IsIntSpace(s[|s| - 1]) then IntStripEnd(s[..|s| - 1]) else s
  }

  /** The text `int()` reads, without the white space it skips around it. */
  function IntStrip(s: string): (r: string)
    ensures |r| <= |s|
    ensures r == [] || (!IsIntSpace(r[0]) && !IsIntSpace(r[|r| - 1]))
  {
    IntStripEnd(IntStripStart(s))
  }

  /** Stripped text without its sign. */
  function Unsigned(t: string): string {
    if |t| > 0 && (t[0] == '+' || t[0] == '-') then t[1..] else t
  }

  /** `int(s)` for a str: surrounding white space, an optional sign, then digit
      groups of at most `MAX_INT_DIGITS` digits; `None` where Python raises
      `ValueError`. */
  function IntLiteral(s: string): Option<int> {
    SignedValue(IntStrip(s))
  }

  /** The value of stripped text: an optional sign, then digit groups. */
  function SignedValue(t: string): Option<int> {
    var body := Unsigned(t);
    if !DigitGroups(body) then None
    else
      var digits := GroupDigits(body);
      if |digits| > MAX_INT_DIGITS then None
      else
        var n: int := DigitsValue(digits);
        Some(if t[0] == '-' then -n else n)
  }

  /** `str(n)` for an int. */
  function IntText(n: int): string {
    if n < 0 then "-" + Decimal(-n) else Decimal(n)
  }

  /** The number of digits of `str(n)`; Python's `str` and `int` both refuse
      more than `MAX_INT_DIGITS`. */
  function DigitCount(n: int): nat {
    |Decimal(if n < 0 then -n else n)|
  }

  /** Text with none of the white space `int()` skips at either end is read whole. */
  lemma IntStripIdentity(s: string)
    requires s == [] || (!IsIntSpace(s[0]) && !IsIntSpace(s[|s| - 1]))
    ensures IntStrip(s) == s
  {
  }

  /** A plain digit string is a digit group with nothing to drop. */
  lemma PlainDigits(d: string)
    requires |d| > 0 && forall k :: 0 <= k < |d| ==> IsDigit(d[k])
    ensures DigitGroups(d) && Digits(d) == d && GroupDigits(d) == d
  {
    forall k | 0 <= k < |d| ensures DigitOrJoin(d, k) && d[k] != '_' {
      assert IsDigit(d[k]);
    }
  }

  /** `int(str(n)) == n`. */
  lemma IntLiteralRoundTrip(n: int)
    requires DigitCount(n) <= MAX_INT_DIGITS
    ensures IntLiteral(IntText(n)) == Some(n)
  {
    if n < 0 {
      NegativeLiteral(-n);
    } else {
      NaturalLiteral(n);
    }
  }

  lemma {:induction false} NaturalLiteral(n: nat)
    requires |Decimal(n)| <= MAX_INT_DIGITS
    ensures IntLiteral(Decimal(n)) == Some(n)
  {
    var d := Decimal(n);
    IntStripIdentity(d);
    UnsignedValue(d);
  }

  lemma {:induction false} NegativeLiteral(n: nat)
    requires |Decimal(n)| <= MAX_INT_DIGITS
    ensures IntLiteral("-" + Decimal(n)) == Some(-(n as int))
  {
    var d := Decimal(n);
    var s := "-" + d;
    assert s[0] == '-' && s[1..] == d && s[|s| - 1] == d[|d| - 1];
    IntStripIdentity(s);
    NegativeValue(s);
  }

  /** Digits alone read as their value. */
  lemma UnsignedValue(d: string)
    requires 0 < |d| <= MAX_INT_DIGITS && forall k :: 0 <= k < |d| ==> IsDigit(d[k])
    ensures SignedValue(d) == Some(DigitsValue(d) as int)
  {
    PlainDigits(d);
  }

  /** `-` and then digits read as minus their value. */
  lemma NegativeValue(s: string)
    requires 1 < |s| <= MAX_INT_DIGITS + 1 && s[0] == '-' && forall k :: 1 <= k < |s| ==> IsDigit(s[k])
    ensures forall k :: 0 <= k < |s[1..]| ==> IsDigit(s[1..][k])
    ensures SignedValue(s) == Some(-(DigitsValue(s[1..]) as int))
  {
    PlainDigits(s[1..]);
  }

  /** A separator from U+001C to U+001F is white space to `strip()`, but not
      to `int()`. */
  predicate IsSeparator(c: char) {
    0x1C <= c as int <= 0x1F
  }

  /** `int()` does not skip the separators that `strip()` removes: text that
      starts with one is refused, whatever follows. */
  lemma SeparatorIsNotIntSpace(s: string)
    requires |s| > 0 && IsSeparator(s[0])
    ensures IntLiteral(s) == None
  {
    IntStripKeepsSeparator(s);
    NoLeadingDigit(IntStrip(s));
  }

  /** `strip()`, by contrast, drops such a separator. */
  lemma StripDropsSeparator(s: string)
    requires |s| > 0 && IsSeparator(s[0])
    ensures Trim(s) == Trim(s[1..])
  {
  }

  lemma IntStripKeepsSeparator(s: string)
    requires |s| > 0 && IsSeparator(s[0])
    ensures IntStrip(s) == [] || IsSeparator(IntStrip(s)[0])
  {
    assert IntStripStart(s) == s;
  }

  /** Text that does not start with a sign or a digit has no value. */
  lemma NoLeadingDigit(t: string)
    requires t == [] || IsSeparator(t[0])
    ensures SignedValue(t) == None
  {
  }

  /** `int()` skips the ASCII white space around a literal: a space before
      digits and a line feed after them are ignored. */
  lemma IntSkipsSpace(d: string)
    requires 0 < |d| <= MAX_INT_DIGITS && forall k :: 0 <= k < |d| ==> IsDigit(d[k])
    ensures IntLiteral(" " + d + "\n") == Some(DigitsValue(d) as int)
  {
    PaddedStrip(d);
    UnsignedValue(d);
  }

  lemma PaddedStrip(d: string)
    requires 0 < |d| && IsDigit(d[0]) && IsDigit(d[|d| - 1])
    ensures IntStrip(" " + d + "\n") == d
  {
    var s := " " + d + "\n";
    assert s[1..] == d + "\n";
    LeadingSpaceSkipped(s);
    TrailingNewlineSkipped(d);
  }

  lemma LeadingSpaceSkipped(s: string)
    requires 1 < |s| && s[0] == ' ' && IsDigit(s[1])
    ensures IntStripStart(s) == s[1..]
  {
    assert IsIntSpace(s[0]);
    assert IntStripStart(s[1..]) == s[1..];
  }

  lemma TrailingNewlineSkipped(d: string)
    requires 0 < |d| && IsDigit(d[|d| - 1])
    ensures IntStripEnd(d + "\n") == d
  {
    assert (d + "\n")[..|d|] == d;
  }

  /** Digits beyond `MAX_INT_DIGITS` are refused, whatever their value. */
  lemma TooManyDigits(d: string)
    requires |d| > MAX_INT_DIGITS && forall k :: 0 <= k < |d| ==> IsDigit(d[k])
    ensures IntLiteral(d) == None
  {
    IntStripIdentity(d);
    OverlongValue(d);
  }

  lemma OverlongValue(d: string)
    requires |d| > MAX_INT_DIGITS && forall k :: 0 <= k < |d| ==> IsDigit(d[k])
    ensures SignedValue(d) == None
  {
    PlainDigits(d);
  }

  /** `int(v)` for a decoded value; `None` where Python raises. */
  function IntOf(j: Json): (r: Option<int>)
    ensures j.JBool? || j.JInt? || j.JFloat? ==> r.Some?
  {
    match j
    case JBool(b) => Some(if b then 1 else 0)
    case JInt(i) => Some(i)
    case JFloat(x) => Some(Truncate(x))
    case JString(s) => IntLiteral(s)
    case _ => None
  }

  // ---------------------------------------------------------------------------
  // The success path and the fallback path
  // ---------------------------------------------------------------------------

  /** `d.get(key, default)`. */
  function Get(fields: map<string, Json>, key: string, default: Json): Json {
    if key in fields then fields[key] else default
  }

  /** The label normalisation: anything whose upper case contains "NOT" is
      NOT_SARCASM, anything else SARCASM. */
  function NormalizeLabel(prediction: string): (normal: string)
    ensures normal == SARCASM || normal == NOT_SARCASM
  {
    if Contains(Upper(prediction), "NOT") then NOT_SARCASM else SARCASM
  }

  /** The body of the `try` after `json.loads` returned `j`. */
  function Interpret(j: Json): (r: Parsed)
    ensures r.Output? ==> j.JObject?
    ensures r.Output? ==> r.output.prediction == SARCASM || r.output.prediction == NOT_SARCASM
    ensures r.Output? ==>
      (r.output.prediction == NOT_SARCASM <==>
        "prediction" in j.fields && j.fields["prediction"].JString?
        && Contains(Upper(j.fields["prediction"].s), "NOT"))
    ensures r.Output? && "confidence" !in j.fields ==> r.output.confidence == DEFAULT_CONFIDENCE
    ensures r.Output? && "confidence" in j.fields ==> IntOf(j.fields["confidence"]) == Some(r.output.confidence)
    ensures r.Output? ==> r.output.reasoning == Get(j.fields, "reasoning", JString(NO_REASONING))
    ensures r.Raised? <==>
      || !j.JObject?
      || ("prediction" in j.fields && !j.fields["prediction"].JString?)
      || ("confidence" in j.fields && IntOf(j.fields["confidence"]).None?)
  {
    if !j.JObject? then Raised(NotAnObject(j))
    else
      var prediction := Get(j.fields, "prediction", JString(""));
      if !prediction.JString? then Raised(PredictionNotText(prediction))
      else
        var confidence := Get(j.fields, "confidence", JInt(DEFAULT_CONFIDENCE));
        match IntOf(confidence)
        case None => Raised(ConfidenceNotInteger(confidence))
        case Some(n) =>
          var reasoning := Get(j.fields, "reasoning", JString(NO_REASONING));
          assert !Contains(Upper(""), "NOT");
          Output(ModelOutput(NormalizeLabel(prediction.s), n, reasoning))
  }

  /** The `except json.JSONDecodeError` branch on the cleaned text `t`. */
  function Fallback(t: string): (r: ModelOutput)
    ensures r.confidence == DEFAULT_CONFIDENCE
    ensures r.reasoning.JString? && |r.reasoning.s| >= |PARSE_ERROR|
    ensures var raw := r.reasoning.s[|PARSE_ERROR|..];
      && r.reasoning.s[..|PARSE_ERROR|] == PARSE_ERROR
      && |raw| == (if |t| < RAW_LIMIT then |t| else RAW_LIMIT)
      && raw == t[..|raw|]
  {
    var upper := Upper(t);
    var prediction :=
      if Contains(upper, NOT_SARCASM) || Contains(upper, "NOT SARCASM") then NOT_SARCASM
      else if Contains(upper, SARCASM) then SARCASM
      else UNKNOWN;
    var reasoning := PARSE_ERROR + t[..if |t| < RAW_LIMIT then |t| else RAW_LIMIT];
    assert reasoning[|PARSE_ERROR|..] == t[..if |t| < RAW_LIMIT then |t| else RAW_LIMIT];
    ModelOutput(prediction, DEFAULT_CONFIDENCE, JString(reasoning))
  }

  /** `parse_output(text)` with `json.loads` given as `loads`. */
  function ParseOutput(loads: string -> Decoded, text: string): (r: Parsed)
    ensures r.Raised? ==> loads(Clean(text)).Value?
    ensures r.Output? ==>
      r.output.prediction == SARCASM || r.output.prediction == NOT_SARCASM
      || (r.output.prediction == UNKNOWN && loads(Clean(text)) == DecodeError)
  {
    var t := Clean(text);
    match loads(t)
    case DecodeError => FallbackLabels(t); Output(Fallback(t))
    case Value(j) => Interpret(j)
  }

  // ---------------------------------------------------------------------------
  // Properties
  // ---------------------------------------------------------------------------

  /** The fallback labels. A text naming NOT_SARCASM or NOT SARCASM always also
      contains SARCASM, which is why those are looked for first: such a text is
      NOT_SARCASM, never SARCASM. A text is UNKNOWN exactly when its upper case
      does not contain SARCASM at all. */
  lemma FallbackLabels(t: string)
    ensures var u, p := Upper(t), Fallback(t).prediction;
      && (p == NOT_SARCASM || p == SARCASM || p == UNKNOWN)
      && (Contains(u, NOT_SARCASM) || Contains(u, "NOT SARCASM") ==> Contains(u, SARCASM) && p == NOT_SARCASM)
      && (p == NOT_SARCASM <==> Contains(u, NOT_SARCASM) || Contains(u, "NOT SARCASM"))
      && (p == SARCASM <==> Contains(u, SARCASM) && !Contains(u, NOT_SARCASM) && !Contains(u, "NOT SARCASM"))
      && (p == UNKNOWN <==> !Contains(u, SARCASM))
  {
    var u := Upper(t);
    assert OccursAt(NOT_SARCASM, SARCASM, 4) by {
      assert NOT_SARCASM[4..11] == SARCASM;
    }
    ContainsAt(NOT_SARCASM, SARCASM, 4);
    assert OccursAt("NOT SARCASM", SARCASM, 4) by {
      assert "NOT SARCASM"[4..11] == SARCASM;
    }
    ContainsAt("NOT SARCASM", SARCASM, 4);
    if Contains(u, NOT_SARCASM) {
      ContainsTransitive(u, NOT_SARCASM, SARCASM);
    }
    if Contains(u, "NOT SARCASM") {
      ContainsTransitive(u, "NOT SARCASM", SARCASM);
    }
  }

  /** `w` occurs in `s` at `i` when upper-casing `s`'s ASCII letters. */
  predicate CaselessAt(s: string, w: string, i: int) {
    0 <= i <= |s| - |w| && forall k :: 0 <= k < |w| ==> AsciiUpper(s[i + k]) == w[k]
  }

  /** Upper-casing then searching for an ASCII word finds it wherever it occurs
      in any mix of cases; on ASCII text it finds nothing else. */
  lemma UpperFindsCaseless(s: string, w: string, i: int)
    requires forall k :: 0 <= k < |w| ==> IsAscii(w[k])
    requires CaselessAt(s, w, i)
    ensures Contains(Upper(s), w)
  {
    var piece := s[i..i + |w|];
    assert forall k :: 0 <= k < |piece| ==> IsAscii(piece[k]) by {
      forall k | 0 <= k < |piece| ensures IsAscii(piece[k]) {
        assert AsciiUpper(s[i + k]) == w[k];
      }
    }
    UpperOfAscii(piece);
    assert Upper(piece) == w;
    assert s == s[..i] + piece + s[i + |w|..];
    UpperAppend(s[..i] + piece, s[i + |w|..]);
    UpperAppend(s[..i], piece);
    var u := Upper(s);
    assert u == Upper(s[..i]) + w + Upper(s[i + |w|..]);
    assert u[|Upper(s[..i])|..|Upper(s[..i])| + |w|] == w;
    ContainsAt(u, w, |Upper(s[..i])|);
  }

  lemma UpperFindsOnlyCaseless(s: string, w: string)
    requires forall k :: 0 <= k < |s| ==> IsAscii(s[k])
    requires Contains(Upper(s), w)
    ensures exists i :: CaselessAt(s, w, i)
  {
    UpperOfAscii(s);
    ContainsIff(Upper(s), w);
    var i :| OccursAt(Upper(s), w, i);
    forall k | 0 <= k < |w| ensures AsciiUpper(s[i + k]) == w[k] {
      assert w[k] == Upper(s)[i..i + |w|][k];
    }
    assert CaselessAt(s, w, i);
  }

  /** The normalisation absorbs case variants: a prediction holding "not", "Not",
      "nOT" or any other casing of NOT is NOT_SARCASM; for an ASCII prediction
      nothing else is. */
  lemma LabelIgnoresCase(prediction: string)
    ensures (exists i :: CaselessAt(prediction, "NOT", i)) ==> NormalizeLabel(prediction) == NOT_SARCASM
    ensures (forall k :: 0 <= k < |prediction| ==> IsAscii(prediction[k])) ==>
      (NormalizeLabel(prediction) == NOT_SARCASM <==> exists i :: CaselessAt(prediction, "NOT", i))
  {
    if i :| CaselessAt(prediction, "NOT", i) {
      UpperFindsCaseless(prediction, "NOT", i);
    }
    if (forall k :: 0 <= k < |prediction| ==> IsAscii(prediction[k])) && Contains(Upper(prediction), "NOT") {
      UpperFindsOnlyCaseless(prediction, "NOT");
    }
  }

  /** A reply that is already bare JSON (no fence, no surrounding white space)
      holding a canonical label, an integer confidence (as a number, or as its
      decimal text of at most `MAX_INT_DIGITS` digits) and a reasoning string parses to exactly those fields. */
  lemma ParseRoundTrip(loads: string -> Decoded, text: string, fields: map<string, Json>,
                       canonical: string, confidence: int, reasoning: string)
    requires !Contains(text, FENCE) && (text == [] || (!IsSpace(text[0]) && !IsSpace(text[|text| - 1])))
    requires loads(text) == Value(JObject(fields))
    requires canonical == SARCASM || canonical == NOT_SARCASM
    requires "prediction" in fields && fields["prediction"] == JString(canonical)
    requires "confidence" in fields
    requires || fields["confidence"] == JInt(confidence)
             || (fields["confidence"] == JString(IntText(confidence)) && DigitCount(confidence) <= MAX_INT_DIGITS)
    requires "reasoning" in fields && fields["reasoning"] == JString(reasoning)
    ensures ParseOutput(loads, text) == Output(ModelOutput(canonical, confidence, JString(reasoning)))
  {
    StripFencesIdentity(text);
    TrimIdentity(text);
    assert Clean(text) == text;
    InterpretRoundTrip(fields, canonical, confidence, reasoning);
  }

  lemma InterpretRoundTrip(fields: map<string, Json>, canonical: string, confidence: int, reasoning: string)
    requires canonical == SARCASM || canonical == NOT_SARCASM
    requires "prediction" in fields && fields["prediction"] == JString(canonical)
    requires "confidence" in fields
    requires || fields["confidence"] == JInt(confidence)
             || (fields["confidence"] == JString(IntText(confidence)) && DigitCount(confidence) <= MAX_INT_DIGITS)
    requires "reasoning" in fields && fields["reasoning"] == JString(reasoning)
    ensures Interpret(JObject(fields)) == Output(ModelOutput(canonical, confidence, JString(reasoning)))
  {
    if fields["confidence"].JString? {
      IntLiteralRoundTrip(confidence);
    }
    assert IntOf(fields["confidence"]) == Some(confidence);
    CanonicalLabelsAreFixed();
  }

  /** Each canonical label normalises to itself. */
  lemma CanonicalLabelsAreFixed()
    ensures NormalizeLabel(SARCASM) == SARCASM
    ensures NormalizeLabel(NOT_SARCASM) == NOT_SARCASM
  {
    SarcasmIsFixed();
    NotSarcasmIsFixed();
  }

  lemma SarcasmIsFixed()
    ensures NormalizeLabel(SARCASM) == SARCASM
  {
    UpperOfCapitals(SARCASM);
    MissingFirstLetter(SARCASM, "NOT");
  }

  lemma NotSarcasmIsFixed()
    ensures NormalizeLabel(NOT_SARCASM) == NOT_SARCASM
  {
    assert CaselessAt(NOT_SARCASM, "NOT", 0);
    UpperFindsCaseless(NOT_SARCASM, "NOT", 0);
  }

  /** A reply whose cleaned text is not JSON and says "not sarcasm" in any
      casing falls back to NOT_SARCASM, whatever fences and white space
      surround it. */
  lemma FreeTextFallsBack(loads: string -> Decoded, text: string, i: int)
    requires loads(Clean(text)) == DecodeError
    requires CaselessAt(Clean(text), "NOT SARCASM", i)
    ensures ParseOutput(loads, text).Output?
    ensures ParseOutput(loads, text).output.prediction == NOT_SARCASM
  {
    CleanTextFallsBack(loads, text, i);
    ParseIgnoresCleaning(loads, text);
  }

  lemma CleanTextFallsBack(loads: string -> Decoded, text: string, i: int)
    requires loads(Clean(text)) == DecodeError
    requires CaselessAt(Clean(text), "NOT SARCASM", i)
    ensures ParseOutput(loads, Clean(text)).Output?
    ensures ParseOutput(loads, Clean(text)).output.prediction == NOT_SARCASM
  {
    CleanIdempotent(text);
    SettledTextFallsBack(loads, Clean(text), i);
  }

  /** The same for a reply that is already clean: no fence, no surrounding
      white space. */
  lemma BareTextFallsBack(loads: string -> Decoded, text: string, i: int)
    requires !Contains(text, FENCE) && text != [] && !IsSpace(text[0]) && !IsSpace(text[|text| - 1])
    requires loads(text) == DecodeError
    requires CaselessAt(text, "NOT SARCASM", i)
    ensures ParseOutput(loads, text).Output?
    ensures ParseOutput(loads, text).output.prediction == NOT_SARCASM
  {
    StripFencesIdentity(text);
    TrimIdentity(text);
    SettledTextFallsBack(loads, text, i);
  }

  lemma SettledTextFallsBack(loads: string -> Decoded, text: string, i: int)
    requires Clean(text) == text
    requires loads(text) == DecodeError
    requires CaselessAt(text, "NOT SARCASM", i)
    ensures ParseOutput(loads, text).Output?
    ensures ParseOutput(loads, text).output.prediction == NOT_SARCASM
  {
    PhraseIsAscii();
    UpperFindsCaseless(text, "NOT SARCASM", i);
    FallbackLabels(text);
  }

  lemma PhraseIsAscii()
    ensures forall k :: 0 <= k < |"NOT SARCASM"| ==> IsAscii("NOT SARCASM"[k])
  {
  }

  /** Parsing text that is already clean gives the same result: fence stripping
      and trimming have nothing left to do. */
  lemma ParseIgnoresCleaning(loads: string -> Decoded, text: string)
    ensures ParseOutput(loads, Clean(text)) == ParseOutput(loads, text)
  {
    CleanIdempotent(text);
  }
}
