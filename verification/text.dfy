/** The string primitives the two Python files rely on, written out over
    `seq<char>`: `str.strip`, `str.startswith`/`endswith`, `str.find`,
    `str.split`/`str.join`, `str.count`, left-justified padding, decimal
    digits, and the case folding `re.IGNORECASE` applies. */
module Text {

  /** Characters Python's `str.isspace()` accepts; the regex class `\s` on
      `str` patterns accepts the same set. */
  predicate IsSpace(c: char) {
    || c == ' '
    || ('\t' <= c <= '\r')              // \t \n \v \f \r
    || ('\U{1c}' <= c <= '\U{1f}')      // information separators
    || c == '\U{85}' || c == '\U{a0}' || c == '\U{1680}'
    || ('\U{2000}' <= c <= '\U{200a}')
    || c == '\U{2028}' || c == '\U{2029}' || c == '\U{202f}' || c == '\U{205f}' || c == '\U{3000}'
  }

  predicate AllSpace(s: string) {
    forall k :: 0 <= k < |s| ==> IsSpace(s[k])
  }

  /** True when `s` has no whitespace at either end. */
  predicate Trimmed(s: string) {
    s == [] || (!IsSpace(s[0]) && !IsSpace(s[|s| - 1]))
  }

  /** Length of the whitespace run that starts `s`. */
  function LeadingSpaces(s: string): (n: nat)
    ensures n <= |s|
    ensures AllSpace(s[..n])
    ensures n < |s| ==> !IsSpace(s[n])
  {
    if s == [] || !IsSpace(s[0]) then 0 else 1 + LeadingSpaces(s[1..])
  }

  /** Index at which the whitespace run that ends `s` begins. */
  function TrailingStart(s: string): (j: nat)
    ensures j <= |s|
    ensures AllSpace(s[j..])
    ensures 0 < j ==> !IsSpace(s[j - 1])
  {
    if s == [] || !IsSpace(s[|s| - 1]) then |s| else TrailingStart(s[..|s| - 1])
  }

  /** Python's `s.strip()`: the infix of `s` left after removing whitespace
      from both ends. */
  function Strip(s: string): (r: string)
    ensures LeadingSpaces(s) + |r| <= |s|
    ensures r == s[LeadingSpaces(s)..LeadingSpaces(s) + |r|]
    ensures AllSpace(s[..LeadingSpaces(s)]) && AllSpace(s[LeadingSpaces(s) + |r|..])
    ensures Trimmed(r)
  {
    var t := s[LeadingSpaces(s)..];
    t[..TrailingStart(t)]
  }

  /** The contract of `LeadingSpaces` pins its value down. */
  lemma {:induction false} LeadingSpacesAt(s: string, i: nat)
    requires i <= |s| && AllSpace(s[..i]) && (i < |s| ==> !IsSpace(s[i]))
    ensures LeadingSpaces(s) == i
    decreases i
  {
    if i > 0 {
      assert s[..i][0] == s[0];
      assert s[1..][..i - 1] == s[..i][1..];
      LeadingSpacesAt(s[1..], i - 1);
    }
  }

  /** The contract of `TrailingStart` pins its value down. */
  lemma {:induction false} TrailingStartAt(s: string, j: nat)
    requires j <= |s| && AllSpace(s[j..]) && (0 < j ==> !IsSpace(s[j - 1]))
    ensures TrailingStart(s) == j
    decreases |s| - j
  {
    if j < |s| {
      assert s[j..][|s| - 1 - j] == s[|s| - 1];
      var t := s[..|s| - 1];
      assert t[j..] == s[j..][..|s| - 1 - j];
      TrailingStartAt(t, j);
    }
  }

  /** `Strip` removes exactly the surrounding whitespace and nothing else:
      whatever trimmed text is wrapped in whitespace comes back unchanged. */
  lemma StripExact(w1: string, r: string, w2: string)
    requires AllSpace(w1) && AllSpace(w2) && Trimmed(r)
    ensures Strip(w1 + r + w2) == r
  {
    var s := w1 + r + w2;
    if r == [] {
      assert s == w1 + w2;
      assert s[..|s|] == s;
      LeadingSpacesAt(s, |s|);
    } else {
      assert s[..|w1|] == w1;
      assert s[|w1|] == r[0];
      LeadingSpacesAt(s, |w1|);
      var t := s[|w1|..];
      assert t == r + w2;
      assert t[|r|..] == w2;
      assert t[|r| - 1] == r[|r| - 1];
      TrailingStartAt(t, |r|);
      assert t[..|r|] == r;
    }
  }

  lemma StripTrimmed(s: string)
    requires Trimmed(s)
    ensures Strip(s) == s
  {
    StripExact([], s, []);
    assert [] + s + [] == s;
  }

  predicate StartsWith(s: string, prefix: string) {
    |prefix| <= |s| && s[..|prefix|] == prefix
  }

  predicate EndsWith(s: string, suffix: string) {
    |suffix| <= |s| && s[|s| - |suffix|..] == suffix
  }

  /** Python's `s.find(c)`: the index of the first `c`, or -1. */
  function Find(s: string, c: char): (i: int)
    ensures -1 <= i < |s|
    ensures i == -1 <==> c !in s
    ensures 0 <= i ==> s[i] == c && c !in s[..i]
  {
    if s == [] then -1
    else if s[0] == c then 0
    else
      var k := Find(s[1..], c);
      if k == -1 then -1
      else
        assert s[..k + 1] == [s[0]] + s[1..][..k];
        k + 1
  }

  /** Python's `sep.join(parts)`. */
  function Join(parts: seq<string>, sep: string): string
  {
    if |parts| == 0 then ""
    else if |parts| == 1 then parts[0]
    else parts[0] + sep + Join(parts[1..], sep)
  }

  /** Python's `s.split(sep)` for a one-character separator: never empty,
      no part contains `sep`, and joining the parts back gives `s`. */
  function Split(s: string, sep: char): (parts: seq<string>)
    ensures |parts| >= 1
    ensures forall i :: 0 <= i < |parts| ==> sep !in parts[i]
    ensures Join(parts, [sep]) == s
    decreases |s|
  {
    var k := Find(s, sep);
    if k < 0 then [s]
    else
      var rest := Split(s[k + 1..], sep);
      assert s == s[..k] + [sep] + s[k + 1..];
      assert ([s[..k]] + rest)[1..] == rest;
      [s[..k]] + rest
  }

  /** The contract of `Find` pins its value down: the first occurrence. */
  lemma {:induction false} FindAt(s: string, c: char, i: nat)
    requires i < |s| && s[i] == c && c !in s[..i]
    ensures Find(s, c) == i
    decreases i
  {
    if i > 0 {
      assert s[..i][0] == s[0];
      assert s[1..][..i - 1] == s[..i][1..];
      FindAt(s[1..], c, i - 1);
    }
  }

  /** `Split` at a first separator at `k`. */
  lemma SplitAt(s: string, sep: char, k: nat)
    requires k < |s| && s[k] == sep && sep !in s[..k]
    ensures Split(s, sep) == [s[..k]] + Split(s[k + 1..], sep)
  {
    FindAt(s, sep, k);
  }

  /** `Split` undoes `Join` whenever no part contains the separator. */
  lemma {:induction false} SplitJoin(parts: seq<string>, sep: char)
    requires |parts| >= 1
    requires forall i :: 0 <= i < |parts| ==> sep !in parts[i]
    ensures Split(Join(parts, [sep]), sep) == parts
    decreases |parts|
  {
    if |parts| == 1 {
      assert Join(parts, [sep]) == parts[0];
    } else {
      var rest := parts[1..];
      var tail := Join(rest, [sep]);
      var s := Join(parts, [sep]);
      assert s == parts[0] + [sep] + tail;
      var k := |parts[0]|;
      assert s[k] == sep && s[..k] == parts[0] && s[k + 1..] == tail;
      SplitAt(s, sep, k);
      SplitJoin(rest, sep);
      assert parts == [parts[0]] + rest;
    }
  }

  /** Python's `s.split(sep, 1)`: the text before the first separator and
      the text after it, when there is one. */
  function SplitOnce(s: string, sep: char): (r: Halves)
    ensures r.Pair? <==> sep in s
    ensures r.Pair? ==> s == r.left + [sep] + r.right && sep !in r.left
  {
    var k := Find(s, sep);
    if k < 0 then NoSeparator
    else
      assert s == s[..k] + [sep] + s[k + 1..];
      Pair(s[..k], s[k + 1..])
  }

  datatype Halves = NoSeparator | Pair(left: string, right: string)

  /** Python's `s.count(c)`. */
  function Count(s: string, c: char): (n: nat)
    ensures n <= |s|
    ensures n == 0 <==> c !in s
  {
    if s == [] then 0 else (if s[0] == c then 1 else 0) + Count(s[1..], c)
  }

  lemma {:induction false} CountAppend(a: string, b: string, c: char)
    ensures Count(a + b, c) == Count(a, c) + Count(b, c)
    decreases |a|
  {
    if a != [] {
      assert (a + b)[1..] == a[1..] + b;
      CountAppend(a[1..], b, c);
    } else {
      assert a + b == b;
    }
  }

  function Repeat(c: char, n: nat): (r: string)
    ensures |r| == n
    ensures forall k :: 0 <= k < n ==> r[k] == c
  {
    seq(n, _ => c)
  }

  /** Python's `f"{s:<{width}}"`: `s` followed by enough spaces to reach
      `width`; a longer `s` is left as it is. */
  function PadRight(s: string, width: nat): (r: string)
    ensures |r| == if |s| < width then width else |s|
    ensures r[..|s|] == s
    ensures forall k :: |s| <= k < |r| ==> r[k] == ' '
  {
    if width <= |s| then s else s + Repeat(' ', width - |s|)
  }

  predicate IsDigit(c: char) {
    '0' <= c <= '9'
  }

  predicate AllDigits(s: string) {
    forall k :: 0 <= k < |s| ==> IsDigit(s[k])
  }

  /** Length of the run of ASCII digits that starts `s`. */
  function LeadingDigits(s: string): (n: nat)
    ensures n <= |s|
    ensures AllDigits(s[..n])
    ensures n < |s| ==> !IsDigit(s[n])
  {
    if s == [] || !IsDigit(s[0]) then 0 else 1 + LeadingDigits(s[1..])
  }

  /** The contract of `LeadingDigits` pins its value down. */
  lemma {:induction false} LeadingDigitsAt(s: string, i: nat)
    requires i <= |s| && AllDigits(s[..i]) && (i < |s| ==> !IsDigit(s[i]))
    ensures LeadingDigits(s) == i
    decreases i
  {
    if i > 0 {
      assert s[..i][0] == s[0];
      assert s[1..][..i - 1] == s[..i][1..];
      LeadingDigitsAt(s[1..], i - 1);
    }
  }

  /** Length of the run of non-whitespace characters that starts `s`: the
      text a regex `[^\s]+` can take there. */
  function LeadingToken(s: string): (n: nat)
    ensures n <= |s|
    ensures forall k :: 0 <= k < n ==> !IsSpace(s[k])
    ensures n < |s| ==> IsSpace(s[n])
  {
    if s == [] || IsSpace(s[0]) then 0 else 1 + LeadingToken(s[1..])
  }

  /** The contract of `LeadingToken` pins its value down. */
  lemma {:induction false} LeadingTokenAt(s: string, i: nat)
    requires i <= |s| && (forall k :: 0 <= k < i ==> !IsSpace(s[k])) && (i < |s| ==> IsSpace(s[i]))
    ensures LeadingToken(s) == i
    decreases i
  {
    if i > 0 {
      LeadingTokenAt(s[1..], i - 1);
    }
  }

  function DigitChar(d: nat): (c: char)
    requires d < 10
    ensures IsDigit(c)
  {
    ('0' as int + d) as char
  }

  /** Python's `int(s)` on a string of decimal digits (leading zeros allowed). */
  function DigitsValue(s: string): nat
    requires AllDigits(s)
  {
    if s == [] then 0 else DigitsValue(s[..|s| - 1]) * 10 + (s[|s| - 1] as int - '0' as int)
  }

  /** Python's `str(n)` for a natural number. */
  function NatToString(n: nat): (s: string)
    ensures 1 <= |s|
    ensures AllDigits(s)
    decreases n
  {
    if n < 10 then [DigitChar(n)] else NatToString(n / 10) + [DigitChar(n % 10)]
  }

  /** Python's `str(i)` for any integer. */
  function IntToString(i: int): string {
    if i < 0 then "-" + NatToString(-i) else NatToString(i)
  }

  /** Reading back a printed number gives the number. */
  lemma {:induction false} DigitsRoundTrip(n: nat)
    ensures DigitsValue(NatToString(n)) == n
    decreases n
  {
    if n >= 10 {
      var s := NatToString(n);
      assert s[..|s| - 1] == NatToString(n / 10);
      DigitsRoundTrip(n / 10);
    }
  }

  /** The case folding `re.IGNORECASE` applies when the pattern is made of
      ASCII letters other than `i` and `k`: ASCII upper case folds to lower
      case, and LATIN SMALL LETTER LONG S is an equivalent of `s`. */
  function FoldCase(c: char): char {
    if 'A' <= c <= 'Z' then (c as int + 32) as char
    else if c == '\U{17f}' then 's'
    else c
  }

  /** `re.match(prefix, s, re.IGNORECASE)` for a literal prefix. */
  predicate StartsWithIgnoreCase(s: string, prefix: string) {
    |prefix| <= |s| && forall k :: 0 <= k < |prefix| ==> FoldCase(s[k]) == FoldCase(prefix[k])
  }
}
