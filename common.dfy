/** JavaScript string notions the application relies on: truthiness, prefixes,
    the ECMAScript whitespace class, UTF-16 length, decimal formatting of integers,
    `Array.prototype.join` and the first-occurrence `String.prototype.replace`. */
module Common {

  datatype Option<+T> = None | Some(value: T)

  /** A string-valued JavaScript field is truthy iff it is present and non-empty. */
  predicate Truthy(s: Option<string>) {
    s.Some? && s.value != ""
  }

  predicate StartsWith(s: string, prefix: string) {
    |prefix| <= |s| && s[..|prefix|] == prefix
  }

  lemma StartsWithAppend(prefix: string, rest: string)
    ensures StartsWith(prefix + rest, prefix)
  {
    assert (prefix + rest)[..|prefix|] == prefix;
  }

  /** The WhiteSpace and LineTerminator code points of ECMAScript: what the
      regular-expression class `\s` matches and what `parseInt` skips. */
  predicate IsJsWhitespace(c: char) {
    || c == '\t' || c == '\n' || c == '\U{000B}' || c == '\U{000C}' || c == '\r' || c == ' '
    || c == '\U{00A0}' || c == '\U{1680}' || ('\U{2000}' <= c <= '\U{200A}')
    || c == '\U{2028}' || c == '\U{2029}' || c == '\U{202F}' || c == '\U{205F}'
    || c == '\U{3000}' || c == '\U{FEFF}'
  }

  predicate IsDecimalDigit(c: char) {
    '0' <= c <= '9'
  }

  /** `s.length` in JavaScript: code points above U+FFFF take two UTF-16 code units. */
  function Utf16Length(s: string): (n: nat)
    ensures |s| <= n <= 2 * |s|
    ensures (forall i | 0 <= i < |s| :: s[i] as int <= 0xFFFF) ==> n == |s|
  {
    if s == [] then 0
    else Utf16Length(s[..|s| - 1]) + (if s[|s| - 1] as int > 0xFFFF then 2 else 1)
  }

  function DigitChar(d: nat): (c: char)
    requires d < 10
    ensures IsDecimalDigit(c) && c as int - '0' as int == d
  {
    ('0' as int + d) as char
  }

  /** The decimal text of a natural number, without leading zeros. */
  function NatToDecimal(n: nat): (s: string)
    ensures |s| >= 1
    ensures forall i | 0 <= i < |s| :: IsDecimalDigit(s[i])
    ensures s[0] == '0' ==> n == 0
  {
    if n < 10 then [DigitChar(n)] else NatToDecimal(n / 10) + [DigitChar(n % 10)]
  }

  /** The value of a string of decimal digits. */
  function DecimalValue(s: string): nat
    requires forall i | 0 <= i < |s| :: IsDecimalDigit(s[i])
  {
    if s == [] then 0
    else
      assert IsDecimalDigit(s[|s| - 1]);
      DecimalValue(s[..|s| - 1]) * 10 + (s[|s| - 1] as int - '0' as int)
  }

  /** Reading the decimal text back gives the number that was formatted. */
  lemma {:induction false} DecimalRoundTrip(n: nat)
    ensures DecimalValue(NatToDecimal(n)) == n
  {
    var s := NatToDecimal(n);
    if n >= 10 {
      DecimalRoundTrip(n / 10);
      assert s[..|s| - 1] == NatToDecimal(n / 10);
    }
  }

  /** `n.toString()` for an integer `n`. */
  function IntToDecimal(n: int): (s: string)
    ensures |s| >= 1
    ensures n >= 0 ==> IsDecimalDigit(s[0])
    ensures n < 0 ==> |s| >= 2 && s[0] == '-' && IsDecimalDigit(s[1])
    ensures forall i | (if n < 0 then 1 else 0) <= i < |s| :: IsDecimalDigit(s[i])
    ensures n != 0 ==> s[if n < 0 then 1 else 0] != '0'
  {
    if n < 0 then
      var d := NatToDecimal(-n);
      assert forall i | 1 <= i < |"-" + d| :: ("-" + d)[i] == d[i - 1];
      "-" + d
    else NatToDecimal(n)
  }

  /** `parts.join(sep)`. */
  function Join(parts: seq<string>, sep: string): string {
    if |parts| == 0 then ""
    else if |parts| == 1 then parts[0]
    else parts[0] + sep + Join(parts[1..], sep)
  }

  /** Whether `pat` occurs in `s` at position `k`. */
  predicate OccursAt(s: string, pat: string, k: nat) {
    k + |pat| <= |s| && s[k..k + |pat|] == pat
  }

  /** The first position at or after `from` where `pat` occurs. */
  function IndexFrom(s: string, pat: string, from: nat): (r: Option<nat>)
    ensures r.Some? ==> from <= r.value && OccursAt(s, pat, r.value)
    ensures r.Some? ==> forall k | from <= k < r.value :: !OccursAt(s, pat, k)
    ensures r.None? ==> forall k | from <= k :: !OccursAt(s, pat, k)
    decreases |s| - from
  {
    if from + |pat| > |s| then None
    else if s[from..from + |pat|] == pat then Some(from)
    else IndexFrom(s, pat, from + 1)
  }

  /** `s.replace(pat, "")` with a string pattern: deletes the first occurrence only. */
  function RemoveFirst(s: string, pat: string): (r: string)
    ensures IndexFrom(s, pat, 0).None? ==> r == s
    ensures IndexFrom(s, pat, 0).Some? ==> |r| + |pat| == |s|
  {
    match IndexFrom(s, pat, 0)
    case None => s
    case Some(k) => s[..k] + s[k + |pat|..]
  }

  /** Cutting at the first occurrence: when `pat` does not occur in `a + pat + b` before
      the one that follows `a`, removing it leaves `a + b`. */
  lemma RemoveFirstSplit(a: string, pat: string, b: string)
    requires forall k | 0 <= k < |a| :: !OccursAt(a + pat + b, pat, k)
    ensures RemoveFirst(a + pat + b, pat) == a + b
  {
    var h := a + pat + b;
    assert h[|a|..|a| + |pat|] == pat;
    assert OccursAt(h, pat, |a|);
    var k := IndexFrom(h, pat, 0).value;
    assert k == |a|;
    assert h[..|a|] == a && h[|a| + |pat|..] == b;
  }
}
