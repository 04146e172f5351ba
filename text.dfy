/**
 * Character classes and string helpers with the semantics of Python 3 `str` and of
 * Python's `re` module on `str` patterns: Unicode whitespace (`\s`, `str.strip()`),
 * case-insensitive letter matching (`re.IGNORECASE`), substring search (`in`),
 * `str.join` and `str.lower()` restricted to what the model needs.
 */
module Text {

  /** Python's `str.isspace()`, which is also the class `\s` matches in a `str` pattern. */
  predicate IsSpace(c: char)
  {
    || ('\t' <= c <= '\r')
    || ('\U{1C}' <= c <= '\U{1F}')
    || c == ' '
    || c == '\U{85}'
    || c == '\U{A0}'
    || c == '\U{1680}'
    || ('\U{2000}' <= c <= '\U{200A}')
    || c == '\U{2028}'
    || c == '\U{2029}'
    || c == '\U{202F}'
    || c == '\U{205F}'
    || c == '\U{3000}'
  }

  /** The first index at or after `k` that does not hold whitespace (a greedy `\s*`). */
  function SkipSpace(s: string, k: nat): (r: nat)
    requires k <= |s|
    ensures k <= r <= |s|
    ensures forall i :: k <= i < r ==> IsSpace(s[i])
    ensures r < |s| ==> !IsSpace(s[r])
    decreases |s| - k
  {
    if k < |s| && IsSpace(s[k]) then SkipSpace(s, k + 1) else k
  }

  /** The index after the last non-whitespace character of `s[lo..k]`, or `lo` when
      there is none (a greedy `\s*` matched backwards from `k`). */
  function SkipSpaceBack(s: string, lo: nat, k: nat): (r: nat)
    requires lo <= k <= |s|
    ensures lo <= r <= k
    ensures forall i :: r <= i < k ==> IsSpace(s[i])
    ensures lo < r ==> !IsSpace(s[r - 1])
    decreases k
  {
    if lo < k && IsSpace(s[k - 1]) then SkipSpaceBack(s, lo, k - 1) else k
  }

  /** `s.strip()`: the infix left once leading and then trailing whitespace is removed. */
  function Strip(s: string): (r: string)
  {
    var a := SkipSpace(s, 0);
    s[a..SkipSpaceBack(s, a, |s|)]
  }

  /** The result of `Strip` neither starts nor ends with whitespace. */
  predicate Trimmed(s: string)
  {
    s == [] || (!IsSpace(s[0]) && !IsSpace(s[|s| - 1]))
  }

  /** Strip removes only whitespace, from both ends, and leaves a trimmed infix. */
  lemma StripInfix(s: string)
    ensures Trimmed(Strip(s))
    ensures exists a :: StrippedAt(s, a)
  {
    var a := SkipSpace(s, 0);
    var b := SkipSpaceBack(s, a, |s|);
    var r := Strip(s);
    assert |r| == b - a;
    if r != [] {
      assert r[0] == s[a] && r[|r| - 1] == s[b - 1];
    }
    assert StrippedAt(s, a);
  }

  /** `Strip(s)` is the infix of `s` at index `a`, with only whitespace around it. */
  predicate StrippedAt(s: string, a: int)
  {
    var r := Strip(s);
    && 0 <= a && a + |r| <= |s| && r == s[a..a + |r|]
    && (forall i :: 0 <= i < a ==> IsSpace(s[i]))
    && (forall i :: a + |r| <= i < |s| ==> IsSpace(s[i]))
  }

  /** Text that is already trimmed is left alone. */
  lemma StripTrimmed(s: string)
    requires Trimmed(s)
    ensures Strip(s) == s
  {
  }

  /** `str.strip()` is idempotent. */
  lemma StripIdempotent(s: string)
    ensures Strip(Strip(s)) == Strip(s)
  {
    StripInfix(s);
    StripTrimmed(Strip(s));
  }

  /** Whether `c` matches the lower-case ASCII letter `l` under Python's `re.IGNORECASE`
      on a `str` pattern: either case, and the Unicode letters that simple case folding
      sends to the same letter (long s for `s`; dotless i and dotted capital I for `i`). */
  predicate LetterMatches(c: char, l: char)
  {
    || c == l
    || ('a' <= l <= 'z' && c == (l as int - 32) as char)
    || (l == 's' && c == '\U{17F}')
    || (l == 'i' && (c == '\U{131}' || c == '\U{130}'))
  }

  predicate LowerAsciiWord(w: string)
  {
    forall i :: 0 <= i < |w| ==> 'a' <= w[i] <= 'z'
  }

  /** `s[k..k+|w|]` spells the lower-case word `w`, case-insensitively. */
  predicate WordAt(s: string, k: nat, w: string)
  {
    k + |w| <= |s| && forall i :: 0 <= i < |w| ==> LetterMatches(s[k + i], w[i])
  }

  /** No character that spells a letter of a lower-case word is a backquote. */
  lemma WordAtNoBackquote(s: string, k: nat, w: string)
    requires LowerAsciiWord(w) && WordAt(s, k, w)
    ensures forall j :: k <= j < k + |w| ==> s[j] != '`'
  {
    forall j | k <= j < k + |w|
      ensures s[j] != '`'
    {
      assert LetterMatches(s[k + (j - k)], w[j - k]);
    }
  }

  /** `t` occurs in `s` starting at index `i`. */
  predicate OccursAt(s: string, t: string, i: int)
  {
    0 <= i && i + |t| <= |s| && s[i..i + |t|] == t
  }

  /** `t in s` for strings. */
  predicate Contains(s: string, t: string)
  {
    exists i | 0 <= i <= |s| - |t| :: OccursAt(s, t, i)
  }

  /** `sep.join(parts)`. */
  function Join(parts: seq<string>, sep: string): (r: string)
  {
    if parts == [] then ""
    else if |parts| == 1 then parts[0]
    else parts[0] + sep + Join(parts[1..], sep)
  }

  /** `c.lower()` for a character whose lower case is one of the ASCII letters.  Besides the
      ASCII capitals no character lowers to a single ASCII letter other than the Kelvin sign,
      which lowers to `k`. */
  function LowerAscii(c: char): char
  {
    if 'A' <= c <= 'Z' then (c as int + 32) as char
    else if c == '\U{212A}' then 'k'
    else c
  }

  /** `s.lower().endswith(suffix)` for a suffix made of ASCII characters, each character
      lowered on its own. For the suffix `.json` the Kelvin sign changes nothing, since `k`
      does not occur in it. */
  predicate EndsWithIgnoringCase(s: string, suffix: string)
  {
    |suffix| <= |s| &&
    forall i :: 0 <= i < |suffix| ==> LowerAscii(s[|s| - |suffix| + i]) == suffix[i]
  }

  lemma AppendNil(a: string)
    ensures a + [] == a
  {
  }

  lemma AppendAssoc(a: string, b: string, c: string)
    ensures a + (b + c) == (a + b) + c
  {
  }
}
