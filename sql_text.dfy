/**
 * SQL text as the route handlers assemble it: clauses joined with a
 * separator, and PostgreSQL positional parameters `$1`, `$2`, ... A scanner
 * reads back which parameter numbers a piece of SQL refers to, so that the
 * builders can be proved to number their placeholders consistently with the
 * values they bind.
 */
module SqlText {
  import opened Js

  /** `parts.join(sep)` on an array of strings. */
  function Join(parts: seq<string>, sep: string): string
    decreases |parts|
  {
    if |parts| == 0 then ""
    else if |parts| == 1 then parts[0]
    else parts[0] + sep + Join(parts[1..], sep)
  }

  /** The placeholder text `$<i>` that a template literal `$${i}` writes. */
  function Param(i: nat): string {
    "$" + NatToDecimal(i)
  }

  /**
   * The parameter numbers that `s` refers to, left to right: each `$`
   * followed by a run of digits contributes the number the whole run denotes.
   */
  function Placeholders(s: string): seq<nat>
    decreases |s|
  {
    if |s| == 0 then []
    else if s[0] == '$' && DigitRun(s[1..]) > 0 then
      var k := DigitRun(s[1..]);
      [DecimalValue(s[1..1 + k])] + Placeholders(s[1 + k..])
    else Placeholders(s[1..])
  }

  /** A text with no `$` in it. */
  predicate DollarFree(s: string) {
    '$' !in s
  }

  /** A text without `$` refers to no parameter. */
  lemma {:induction false} PlaceholdersNone(s: string)
    requires DollarFree(s)
    ensures Placeholders(s) == []
    decreases |s|
  {
    if |s| > 0 {
      assert s[0] in s;
      assert forall c :: c in s[1..] ==> c in s;
      PlaceholdersNone(s[1..]);
    }
  }

  /**
   * Scanning distributes over concatenation when the second part does not
   * start with a digit, so that no placeholder number can run across the seam.
   */
  lemma {:induction false} PlaceholdersConcat(a: string, b: string)
    requires b == [] || !IsDigit(b[0])
    ensures Placeholders(a + b) == Placeholders(a) + Placeholders(b)
    decreases |a|, 1
  {
    if |a| == 0 {
      assert a + b == b;
    } else if a[0] == '$' && DigitRun(a[1..]) > 0 {
      PlaceholderFirst(a, b);
    } else {
      CharFirst(a, b);
    }
  }

  /** PlaceholdersConcat when `a` starts with a placeholder. */
  lemma {:induction false} PlaceholderFirst(a: string, b: string)
    requires b == [] || !IsDigit(b[0])
    requires |a| > 0 && a[0] == '$' && DigitRun(a[1..]) > 0
    ensures Placeholders(a + b) == Placeholders(a) + Placeholders(b)
    decreases |a|, 0
  {
    var k := DigitRun(a[1..]);
    ConcatAtPlaceholder(a, b);
    PlaceholdersConcat(a[1 + k..], b);
  }

  /** PlaceholdersConcat when the first character of `a` starts no placeholder. */
  lemma {:induction false} CharFirst(a: string, b: string)
    requires b == [] || !IsDigit(b[0])
    requires |a| > 0 && !(a[0] == '$' && DigitRun(a[1..]) > 0)
    ensures Placeholders(a + b) == Placeholders(a) + Placeholders(b)
    decreases |a|, 0
  {
    ConcatPastChar(a, b);
    PlaceholdersConcat(a[1..], b);
  }

  /** A placeholder at the start of `a` is read whole in `a + b`, and scanning goes on after it. */
  lemma ConcatAtPlaceholder(a: string, b: string)
    requires b == [] || !IsDigit(b[0])
    requires |a| > 0 && a[0] == '$' && DigitRun(a[1..]) > 0
    ensures var k := DigitRun(a[1..]);
      Placeholders(a + b) == [DecimalValue(a[1..1 + k])] + Placeholders(a[1 + k..] + b)
  {
    var s := a + b;
    var k := DigitRun(a[1..]);
    assert s[1..] == a[1..] + b;
    DigitRunConcat(a[1..], b);
    assert s[1..1 + k] == a[1..1 + k];
    assert s[1 + k..] == a[1 + k..] + b;
  }

  /** A first character of `a` that starts no placeholder is skipped in `a + b` too. */
  lemma ConcatPastChar(a: string, b: string)
    requires b == [] || !IsDigit(b[0])
    requires |a| > 0 && !(a[0] == '$' && DigitRun(a[1..]) > 0)
    ensures Placeholders(a + b) == Placeholders(a[1..] + b)
  {
    var s := a + b;
    assert s[1..] == a[1..] + b;
    DigitRunConcat(a[1..], b);
  }

  /** `$<i>` refers to parameter `i` and to nothing else. */
  lemma PlaceholdersParam(i: nat)
    ensures Placeholders(Param(i)) == [i]
  {
    var d := NatToDecimal(i);
    var s := Param(i);
    assert s[1..] == d;
    DigitRunUnique(d, |d|);
    assert s[1..1 + |d|] == d;
    assert s[1 + |d|..] == [];
    DecimalRoundTrip(i);
  }

  /** Text, then `$<i>`, then text: the two texts carry no `$` and the last does not start with a digit. */
  lemma PlaceholdersAround(before: string, i: nat, after: string)
    requires DollarFree(before) && DollarFree(after)
    requires after == [] || !IsDigit(after[0])
    ensures Placeholders(before + Param(i) + after) == [i]
  {
    PlaceholdersConcat(before + Param(i), after);
    PlaceholdersConcat(before, Param(i));
    PlaceholdersNone(before);
    PlaceholdersNone(after);
    PlaceholdersParam(i);
  }

  /** The parameters referred to by each part, in order. */
  function PlaceholdersOfParts(parts: seq<string>): seq<nat>
    decreases |parts|
  {
    if |parts| == 0 then [] else Placeholders(parts[0]) + PlaceholdersOfParts(parts[1..])
  }

  /** The parameters of a list of parts split at any point. */
  lemma {:induction false} PlaceholdersOfPartsConcat(a: seq<string>, b: seq<string>)
    ensures PlaceholdersOfParts(a + b) == PlaceholdersOfParts(a) + PlaceholdersOfParts(b)
    decreases |a|
  {
    if |a| == 0 {
      assert a + b == b;
    } else {
      assert (a + b)[1..] == a[1..] + b;
      PlaceholdersOfPartsConcat(a[1..], b);
    }
  }

  /** A part that is not empty and does not start with a digit. */
  predicate StartsClear(s: string) {
    |s| > 0 && !IsDigit(s[0])
  }

  /** A joined text starts with the first part's first character. */
  lemma JoinStart(parts: seq<string>, sep: string)
    requires |parts| > 0 && |parts[0]| > 0
    ensures |Join(parts, sep)| > 0 && Join(parts, sep)[0] == parts[0][0]
  {
  }

  /**
   * Joining clauses refers to the parameters of each clause in order, when
   * the separator has no `$` and neither it nor any clause starts with a digit.
   */
  lemma {:induction false} PlaceholdersJoin(parts: seq<string>, sep: string)
    requires forall p :: p in parts ==> StartsClear(p)
    requires StartsClear(sep) && DollarFree(sep)
    ensures Placeholders(Join(parts, sep)) == PlaceholdersOfParts(parts)
    decreases |parts|
  {
    if |parts| == 1 {
      assert PlaceholdersOfParts(parts[1..]) == [];
    } else if |parts| > 1 {
      var rest := Join(parts[1..], sep);
      assert parts[1] in parts;
      JoinStart(parts[1..], sep);
      PlaceholdersJoin(parts[1..], sep);
      assert parts[0] + sep + rest == parts[0] + (sep + rest);
      PlaceholdersConcat(parts[0], sep + rest);
      PlaceholdersConcat(sep, rest);
      PlaceholdersNone(sep);
    }
  }

  /** The numbers 1, 2, ..., n. */
  function Upto(n: nat): (r: seq<nat>)
    ensures |r| == n && forall i :: 0 <= i < n ==> r[i] == i + 1
  {
    seq(n, i => i + 1)
  }
}
