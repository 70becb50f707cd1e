/**
 * The part of JavaScript's value semantics that the modelled handlers rely on:
 * truthiness (`if (!x)`, `a || b`), conversion to text in template strings,
 * decimal integer text, `String.prototype.trim`, `parseInt(s, 10)` and
 * `String.prototype.replace` with a string pattern.
 */
module Js {
  import opened Wrappers

  /**
   * A JavaScript value as it reaches the modelled code. Numbers are integers;
   * `JArray` is an array by its elements, and `JObject` stands for any other
   * object, known only by identity.
   */
  datatype JsValue =
    | JUndefined
    | JNull
    | JBool(b: bool)
    | JNum(n: int)
    | JStr(s: string)
    | JArray(elems: seq<JsValue>)
    | JObject(ref: nat)

  /** ToBoolean: undefined, null, false, 0 and "" are the falsy values. */
  predicate Truthy(v: JsValue) {
    match v
    case JUndefined => false
    case JNull => false
    case JBool(b) => b
    case JNum(n) => n != 0
    case JStr(s) => s != ""
    case JArray(_) => true
    case JObject(_) => true
  }

  /** `a || b` */
  function Or(a: JsValue, b: JsValue): JsValue {
    if Truthy(a) then a else b
  }

  /** A property read `obj.name`: a missing property reads as `undefined`. */
  function Field(obj: map<string, JsValue>, name: string): JsValue {
    if name in obj then obj[name] else JUndefined
  }

  // ---------------------------------------------------------------------
  // Decimal digits
  // ---------------------------------------------------------------------

  predicate IsDigit(c: char) {
    '0' <= c <= '9'
  }

  predicate AllDigits(s: string) {
    forall i :: 0 <= i < |s| ==> IsDigit(s[i])
  }

  function DigitChar(d: nat): (c: char)
    requires d < 10
    ensures IsDigit(c)
  {
    ('0' as int + d) as char
  }

  function DigitValue(c: char): (d: nat)
    requires IsDigit(c)
    ensures d < 10 && DigitChar(d) == c
  {
    c as int - '0' as int
  }

  /** The shortest decimal text of `n`, as `String(n)` writes it. */
  function NatToDecimal(n: nat): (s: string)
    ensures |s| > 0 && AllDigits(s)
    ensures s[0] == '0' ==> n == 0
    decreases n
  {
    if n < 10 then [DigitChar(n)] else NatToDecimal(n / 10) + [DigitChar(n % 10)]
  }

  /** The number a non-empty run of decimal digits denotes. */
  function DecimalValue(s: string): nat
    requires AllDigits(s)
    decreases |s|
  {
    if |s| == 0 then 0 else 10 * DecimalValue(s[..|s| - 1]) + DigitValue(s[|s| - 1])
  }

  /** Decimal text read back gives the number written. */
  lemma {:induction false} DecimalRoundTrip(n: nat)
    ensures DecimalValue(NatToDecimal(n)) == n
    decreases n
  {
    if n >= 10 {
      var s := NatToDecimal(n);
      assert s[..|s| - 1] == NatToDecimal(n / 10);
      DecimalRoundTrip(n / 10);
    }
  }

  /** `String(n)` for an integer `n`. */
  function IntToDecimal(n: int): string {
    if n < 0 then "-" + NatToDecimal(-n) else NatToDecimal(n)
  }

  /** Length of the longest prefix of `s` made of decimal digits. */
  function DigitRun(s: string): (k: nat)
    ensures k <= |s|
    ensures forall i :: 0 <= i < k ==> IsDigit(s[i])
    ensures k < |s| ==> !IsDigit(s[k])
    decreases |s|
  {
    if |s| == 0 || !IsDigit(s[0]) then 0 else 1 + DigitRun(s[1..])
  }

  /** A digit run cannot reach past the end of a part that is followed by a non-digit. */
  lemma DigitRunConcat(x: string, y: string)
    requires y == [] || !IsDigit(y[0])
    ensures DigitRun(x + y) == DigitRun(x)
  {
    var k := DigitRun(x);
    var z := x + y;
    assert forall i :: 0 <= i < k ==> z[i] == x[i];
    if k < |x| {
      assert z[k] == x[k];
    } else if k < |z| {
      assert z[k] == y[0];
    }
    DigitRunUnique(z, k);
  }

  /** The three properties in DigitRun's contract determine its result. */
  lemma DigitRunUnique(s: string, k: nat)
    requires k <= |s|
    requires forall i :: 0 <= i < k ==> IsDigit(s[i])
    requires k < |s| ==> !IsDigit(s[k])
    ensures DigitRun(s) == k
  {
  }

  // ---------------------------------------------------------------------
  // Template-string conversion
  // ---------------------------------------------------------------------

  /**
   * ToString, as `${v}` applies it inside a template string. An array
   * converts as `join(",")` does; a plain object as `[object Object]`.
   */
  function ToJsString(v: JsValue): string
    decreases v, 1
  {
    match v
    case JUndefined => "undefined"
    case JNull => "null"
    case JBool(b) => if b then "true" else "false"
    case JNum(n) => IntToDecimal(n)
    case JStr(s) => s
    case JArray(es) => JoinElements(es)
    case JObject(_) => "[object Object]"
  }

  /** `Array.prototype.join(",")`: the elements' texts separated by commas. */
  function JoinElements(es: seq<JsValue>): string
    decreases es, 0
  {
    if |es| == 0 then ""
    else if |es| == 1 then ElementText(es[0])
    else JoinElements(es[..|es| - 1]) + "," + ElementText(es[|es| - 1])
  }

  /** How `join` writes one element: `undefined` and `null` as nothing. */
  function ElementText(e: JsValue): string
    decreases e, 2
  {
    if e.JUndefined? || e.JNull? then "" else ToJsString(e)
  }

  /**
   * An empty array converts to "", an array of one element that is neither
   * `undefined` nor `null` converts like that element (`${[42]}` is "42"),
   * and each further element adds a comma and its own text (`${["a", "b"]}`
   * is "a,b").
   */
  lemma ArrayText(es: seq<JsValue>, v: JsValue)
    ensures ToJsString(JArray([])) == ""
    ensures !v.JUndefined? && !v.JNull? ==> ToJsString(JArray([v])) == ToJsString(v)
    ensures |es| > 0 ==> ToJsString(JArray(es + [v])) == ToJsString(JArray(es)) + "," + ElementText(v)
    ensures ToJsString(JArray([JStr("a"), JStr("b")])) == "a,b"
  {
    if |es| > 0 {
      assert (es + [v])[..|es|] == es;
    }
    assert JoinElements([v]) == ElementText(v);
    assert [JStr("a"), JStr("b")][..1] == [JStr("a")];
  }

  // ---------------------------------------------------------------------
  // Whitespace and trim
  // ---------------------------------------------------------------------

  /**
   * The characters `trim` and `parseInt` skip: ECMAScript's WhiteSpace
   * (tab, vertical tab, form feed, space, no-break space, byte order mark
   * and the Unicode space separators) and LineTerminator.
   */
  predicate IsJsWhitespace(c: char) {
    || c == '\t' || c == '\n' || c == '\U{000B}' || c == '\U{000C}' || c == '\r'
    || c == ' ' || c == '\U{00A0}' || c == '\U{1680}'
    || ('\U{2000}' <= c <= '\U{200A}')
    || c == '\U{2028}' || c == '\U{2029}' || c == '\U{202F}' || c == '\U{205F}'
    || c == '\U{3000}' || c == '\U{FEFF}'
  }

  /** How many whitespace characters `s` starts with. */
  function LeadingWhitespace(s: string): (n: nat)
    ensures n <= |s|
    ensures n == |s| || !IsJsWhitespace(s[n])
    decreases |s|
  {
    if |s| > 0 && IsJsWhitespace(s[0]) then 1 + LeadingWhitespace(s[1..]) else 0
  }

  /** How many whitespace characters `s` ends with. */
  function TrailingWhitespace(s: string): (n: nat)
    ensures n <= |s|
    ensures n == |s| || !IsJsWhitespace(s[|s| - 1 - n])
    decreases |s|
  {
    if |s| > 0 && IsJsWhitespace(s[|s| - 1]) then 1 + TrailingWhitespace(s[..|s| - 1]) else 0
  }

  /** Every character of the leading run is whitespace. */
  lemma {:induction false} LeadingWhitespaceRun(s: string)
    ensures forall i :: 0 <= i < LeadingWhitespace(s) ==> IsJsWhitespace(s[i])
    decreases |s|
  {
    if |s| > 0 && IsJsWhitespace(s[0]) {
      var u := s[1..];
      LeadingWhitespaceRun(u);
      forall i | 0 <= i < LeadingWhitespace(s) ensures IsJsWhitespace(s[i]) {
        if i > 0 { assert s[i] == u[i - 1]; }
      }
    }
  }

  /** Every character of the trailing run is whitespace. */
  lemma {:induction false} TrailingWhitespaceRun(s: string)
    ensures forall i :: |s| - TrailingWhitespace(s) <= i < |s| ==> IsJsWhitespace(s[i])
    decreases |s|
  {
    if |s| > 0 && IsJsWhitespace(s[|s| - 1]) {
      var u := s[..|s| - 1];
      TrailingWhitespaceRun(u);
      forall i | |s| - TrailingWhitespace(s) <= i < |s| ensures IsJsWhitespace(s[i]) {
        if i < |s| - 1 { assert s[i] == u[i]; }
      }
    }
  }

  /** `s` with its leading whitespace removed. */
  function TrimStart(s: string): string {
    s[LeadingWhitespace(s)..]
  }

  /** `s` with its trailing whitespace removed. */
  function TrimEnd(s: string): string {
    s[..|s| - TrailingWhitespace(s)]
  }

  /** `s.trim()` */
  function Trim(s: string): string {
    TrimEnd(TrimStart(s))
  }

  /** What `trim` returns neither starts nor ends with whitespace. */
  lemma TrimEdges(s: string)
    ensures var r := Trim(s); r == [] || (!IsJsWhitespace(r[0]) && !IsJsWhitespace(r[|r| - 1]))
  {
    var t := TrimStart(s);
    var r := TrimEnd(t);
    if r != [] {
      assert r[0] == t[0] == s[LeadingWhitespace(s)];
      assert r[|r| - 1] == t[|t| - 1 - TrailingWhitespace(t)];
    }
  }

  /** What `trim` keeps starts where the leading whitespace ends. */
  lemma TrimPiece(s: string)
    ensures var lo := LeadingWhitespace(s);
      lo + |Trim(s)| <= |s| && Trim(s) == s[lo..lo + |Trim(s)|]
  {
    var lo := LeadingWhitespace(s);
    var t := TrimStart(s);
    PrefixOfSuffix(s, t, TrimEnd(t), lo);
  }

  /** A prefix of the suffix of `s` from `lo` is the slice of `s` from `lo`. */
  lemma PrefixOfSuffix(s: string, t: string, r: string, lo: int)
    requires 0 <= lo <= |s| && t == s[lo..] && |r| <= |t| && r == t[..|r|]
    ensures lo + |r| <= |s| && r == s[lo..lo + |r|]
  {
  }

  /** Everything after what `trim` keeps is whitespace. */
  lemma TrimTail(s: string)
    ensures forall i :: LeadingWhitespace(s) + |Trim(s)| <= i < |s| ==> IsJsWhitespace(s[i])
  {
    var lo := LeadingWhitespace(s);
    var t := TrimStart(s);
    TrailingWhitespaceRun(t);
    forall i | lo + |Trim(s)| <= i < |s| ensures IsJsWhitespace(s[i]) {
      assert s[i] == t[i - lo];
    }
  }

  /**
   * What `trim` returns is the part of the text between its leading and
   * trailing whitespace: it neither starts nor ends with whitespace, it is a
   * contiguous piece of the input, and everything cut off was whitespace.
   */
  lemma TrimSpec(s: string) returns (lo: nat)
    ensures var r := Trim(s);
      && (r == [] || (!IsJsWhitespace(r[0]) && !IsJsWhitespace(r[|r| - 1])))
      && lo + |r| <= |s| && r == s[lo..lo + |r|]
      && (forall i :: 0 <= i < lo ==> IsJsWhitespace(s[i]))
      && (forall i :: lo + |r| <= i < |s| ==> IsJsWhitespace(s[i]))
  {
    lo := LeadingWhitespace(s);
    TrimEdges(s);
    LeadingWhitespaceRun(s);
    TrimPiece(s);
    TrimTail(s);
  }

  /** Trimming twice is trimming once. */
  lemma TrimIdempotent(s: string)
    ensures Trim(Trim(s)) == Trim(s)
  {
    var r := Trim(s);
    var _ := TrimSpec(s);
    assert TrimStart(r) == r;
    assert TrimEnd(r) == r;
  }

  // ---------------------------------------------------------------------
  // parseInt(s, 10)
  // ---------------------------------------------------------------------

  /** The value of the longest run of decimal digits at the start of `u`; no digit at all gives NaN (`None`). */
  function LeadingDecimal(u: string): Option<nat> {
    var k := DigitRun(u);
    if k == 0 then None else Some(DecimalValue(u[..k]))
  }

  /** The negation of a parsed magnitude; NaN stays NaN. */
  function Negated(m: Option<nat>): Option<int> {
    match m
    case None => None
    case Some(v) => Some(-(v as int))
  }

  /** A parsed magnitude as a signed number. */
  function Signed(m: Option<nat>): Option<int> {
    match m
    case None => None
    case Some(v) => Some(v)
  }

  /**
   * `parseInt(s, 10)`: skip leading whitespace, take an optional sign, then
   * the longest run of decimal digits; no digit at all gives NaN (`None`).
   * Whatever follows the digits is ignored.
   */
  function ParseInt10(s: string): Option<int> {
    var t := TrimStart(s);
    if |t| > 0 && t[0] == '-' then Negated(LeadingDecimal(t[1..]))
    else if |t| > 0 && t[0] == '+' then Signed(LeadingDecimal(t[1..]))
    else Signed(LeadingDecimal(t))
  }

  /** A text that does not start with whitespace is its own TrimStart. */
  lemma TrimStartNoop(s: string)
    requires |s| > 0 && !IsJsWhitespace(s[0])
    ensures TrimStart(s) == s
  {
  }

  /** A text made only of digits is read whole. */
  lemma LeadingDecimalAll(d: string)
    requires |d| > 0 && AllDigits(d)
    ensures LeadingDecimal(d) == Some(DecimalValue(d))
  {
    DigitRunUnique(d, |d|);
    assert d[..|d|] == d;
  }

  /** parseInt reads a run of digits as the number it denotes. */
  lemma ParseDigits(d: string)
    requires |d| > 0 && AllDigits(d)
    ensures ParseInt10(d) == Some(DecimalValue(d))
  {
    LeadingDecimalAll(d);
    assert IsDigit(d[0]);
    TrimStartNoop(d);
  }

  /** parseInt reads a minus sign followed by a run of digits as the negated number. */
  lemma ParseNegatedDigits(s: string)
    requires |s| > 1 && s[0] == '-' && AllDigits(s[1..])
    ensures ParseInt10(s) == Some(-(DecimalValue(s[1..]) as int))
  {
    TrimStartNoop(s);
    LeadingDecimalAll(s[1..]);
  }

  /** `parseInt(String(n), 10) === n` for every integer. */
  lemma ParseIntRoundTrip(n: int)
    ensures ParseInt10(IntToDecimal(n)) == Some(n)
  {
    var m: nat := if n < 0 then -n else n;
    if n < 0 {
      var s := IntToDecimal(n);
      assert s[1..] == NatToDecimal(m);
      ParseNegatedDigits(s);
    } else {
      ParseDigits(NatToDecimal(m));
    }
    DecimalRoundTrip(m);
  }

  /** A run of digits followed by a non-digit is read up to the non-digit. */
  lemma LeadingDecimalThen(d: string, r: string)
    requires |d| > 0 && AllDigits(d)
    requires r == [] || !IsDigit(r[0])
    ensures LeadingDecimal(d + r) == Some(DecimalValue(d))
  {
    DigitRunUnique(d, |d|);
    DigitRunConcat(d, r);
    assert (d + r)[..|d|] == d;
  }

  /**
   * parseInt reads the leading number and ignores what follows it, so the
   * decimal text of any integer followed by a non-digit, such as "12abc",
   * gives back that integer.
   */
  lemma ParseIntIgnoresTrailingText(n: int, r: string)
    requires r == [] || !IsDigit(r[0])
    ensures ParseInt10(IntToDecimal(n) + r) == Some(n)
  {
    IntToDecimalIsDecimalText(n);
    ParseIntThen(IntToDecimal(n), r);
    ParseIntRoundTrip(n);
  }

  /** An optional minus sign followed by a non-empty run of digits. */
  predicate IsDecimalText(s: string) {
    (|s| > 0 && AllDigits(s)) || (|s| > 1 && s[0] == '-' && AllDigits(s[1..]))
  }

  lemma IntToDecimalIsDecimalText(n: int)
    ensures IsDecimalText(IntToDecimal(n))
  {
    if n < 0 {
      assert IntToDecimal(n)[1..] == NatToDecimal(-n);
    }
  }

  /** What follows decimal text does not change what parseInt reads, unless it is a digit. */
  lemma ParseIntThen(s: string, r: string)
    requires IsDecimalText(s)
    requires r == [] || !IsDigit(r[0])
    ensures ParseInt10(s + r) == ParseInt10(s)
  {
    if |s| > 0 && AllDigits(s) {
      ParseDigitsThen(s, r);
      ParseDigits(s);
    } else {
      var t := s + r;
      assert t[0] == '-' && t[1..] == s[1..] + r;
      ParseNegatedDigitsThen(t, s[1..], r);
      ParseNegatedDigits(s);
    }
  }

  /** parseInt reads a run of digits followed by a non-digit as the number the digits denote. */
  lemma ParseDigitsThen(d: string, r: string)
    requires |d| > 0 && AllDigits(d)
    requires r == [] || !IsDigit(r[0])
    ensures ParseInt10(d + r) == Some(DecimalValue(d))
  {
    var s := d + r;
    assert s[0] == d[0] && IsDigit(d[0]);
    ParseUnsigned(s);
    LeadingDecimalThen(d, r);
  }

  /** parseInt reads a minus sign, a run of digits and then a non-digit as the negated number. */
  lemma ParseNegatedDigitsThen(s: string, d: string, r: string)
    requires |d| > 0 && AllDigits(d)
    requires r == [] || !IsDigit(r[0])
    requires |s| > 0 && s[0] == '-' && s[1..] == d + r
    ensures ParseInt10(s) == Some(-(DecimalValue(d) as int))
  {
    ParseMinus(s);
    LeadingDecimalThen(d, r);
  }

  /** A text starting with a digit is read from its first character. */
  lemma ParseUnsigned(s: string)
    requires |s| > 0 && IsDigit(s[0])
    ensures ParseInt10(s) == Signed(LeadingDecimal(s))
  {
    TrimStartNoop(s);
  }

  /** A text starting with a minus sign is read negated from its second character. */
  lemma ParseMinus(s: string)
    requires |s| > 0 && s[0] == '-'
    ensures ParseInt10(s) == Negated(LeadingDecimal(s[1..]))
  {
    TrimStartNoop(s);
  }

  /** The text parseInt reads digits from: what follows one leading sign, if there is one. */
  function AfterSign(t: string): string {
    if |t| > 0 && (t[0] == '-' || t[0] == '+') then t[1..] else t
  }

  /**
   * parseInt gives NaN exactly when no digit follows the leading whitespace
   * and the optional sign; "abc", "", "-" and " +x" are such texts.
   */
  lemma ParseIntNaN(s: string)
    ensures ParseInt10(s) == None <==> DigitRun(AfterSign(TrimStart(s))) == 0
  {
  }

  // ---------------------------------------------------------------------
  // String search and replace
  // ---------------------------------------------------------------------

  /** `pat` occurs in `s` starting at index `i`. */
  predicate MatchesAt(s: string, pat: string, i: nat) {
    i + |pat| <= |s| && s[i..i + |pat|] == pat
  }

  /** The first index at or after `from` where `pat` occurs in `s`, as `indexOf` finds it. */
  function IndexOfFrom(s: string, pat: string, from: nat): (r: Option<nat>)
    ensures r.Some? ==> from <= r.value && MatchesAt(s, pat, r.value)
    ensures r.Some? ==> forall i :: from <= i < r.value ==> !MatchesAt(s, pat, i)
    ensures r.None? ==> forall i :: from <= i ==> !MatchesAt(s, pat, i)
    decreases |s| - from
  {
    if from + |pat| > |s| then None
    else if s[from..from + |pat|] == pat then Some(from)
    else IndexOfFrom(s, pat, from + 1)
  }

  /** `s.replace(pat, rep)` with a string pattern: only the first occurrence is replaced. */
  function ReplaceFirst(s: string, pat: string, rep: string): string {
    match IndexOfFrom(s, pat, 0)
    case None => s
    case Some(i) => s[..i] + rep + s[i + |pat|..]
  }

  /** Replacing a prefix by "" strips exactly that prefix, whatever follows it. */
  lemma ReplacePrefixStrips(pat: string, rest: string)
    ensures ReplaceFirst(pat + rest, pat, "") == rest
  {
    var s := pat + rest;
    assert s[0..|pat|] == pat;
    assert IndexOfFrom(s, pat, 0) == Some(0);
    assert s[|pat|..] == rest;
  }
}
