/**
 * Hand-rolled scanners for the three Markdown-fence regular expressions of the query layer:
 *
 *   OptionalSparql   ```(?:sparql)?\s*([\s\S]*?)```   case-insensitive (query normalisation)
 *   SparqlThenSpace  ```sparql\s+([\s\S]*?)```        case-insensitive (extraction, first tier)
 *   Bare             ```\s*([\s\S]*?)```              (extraction, second tier)
 *
 * In each pattern the part between the opening fence and the captured body (the optional
 * tag and the whitespace run) holds no backquote, so the greedy choice of the tag and of the
 * whitespace run is the only one under which a closing fence can be found: backtracking to a
 * shorter tag or run only starts the lazy body earlier on characters that cannot begin a
 * fence.  A match at a position is therefore determined: the body starts after the greedy
 * opener and ends at the first closing fence.
 */
module Fences {
  import opened Wrappers
  import opened Text

  /** Three backquotes start at index `i`. */
  predicate FenceAt(s: string, i: int)
  {
    0 <= i && i + 3 <= |s| && s[i] == '`' && s[i + 1] == '`' && s[i + 2] == '`'
  }

  /** The first fence at or after `k` (the end of a lazy `[\s\S]*?` run). */
  function FindFence(s: string, k: nat): (r: Option<nat>)
    ensures r.Some? ==> k <= r.value && FenceAt(s, r.value)
    ensures r.Some? ==> forall j :: k <= j < r.value ==> !FenceAt(s, j)
    ensures r.None? ==> forall j :: k <= j ==> !FenceAt(s, j)
    decreases |s| - k
  {
    if k + 3 > |s| then None
    else if FenceAt(s, k) then Some(k)
    else FindFence(s, k + 1)
  }

  /** The first fence at or after `k` is the one at `c` when none lies in between. */
  lemma FindFenceFirst(s: string, k: nat, c: nat)
    requires k <= c && FenceAt(s, c)
    requires forall j :: k <= j < c ==> !FenceAt(s, j)
    ensures FindFence(s, k) == Some(c)
  {
    var r := FindFence(s, k);
    assert r.Some? && !(r.value < c) && !(c < r.value);
  }

  /** What may stand between the opening fence and the body. */
  datatype Opener = OptionalSparql | SparqlThenSpace | Bare

  predicate SparqlAt(s: string, k: nat)
  {
    WordAt(s, k, "sparql")
  }

  /** Where the body starts when the opener is read from index `k`, if it can be read. */
  function BodyStart(s: string, k: nat, kind: Opener): (r: Option<nat>)
    requires k <= |s|
    ensures r.Some? ==> k <= r.value <= |s| && (r.value < |s| ==> !IsSpace(s[r.value]))
    ensures r.Some? ==> forall j :: k <= j < r.value ==> s[j] != '`'
    ensures kind != SparqlThenSpace ==> r.Some?
  {
    match kind
    case OptionalSparql =>
      if SparqlAt(s, k) then
        WordAtNoBackquote(s, k, "sparql");
        Some(SkipSpace(s, k + 6))
      else Some(SkipSpace(s, k))
    case SparqlThenSpace =>
      if SparqlAt(s, k) && k + 6 < |s| && IsSpace(s[k + 6]) then
        WordAtNoBackquote(s, k, "sparql");
        Some(SkipSpace(s, k + 6))
      else None
    case Bare => Some(SkipSpace(s, k))
  }

  /** A matched block: its body is `s[body..close]` and the closing fence starts at `close`. */
  datatype Span = Span(body: nat, close: nat)

  /** The match of the pattern anchored at index `i`, if there is one. */
  function MatchAt(s: string, i: nat, kind: Opener): (r: Option<Span>)
    ensures r.Some? ==> FenceAt(s, i) && i + 3 <= r.value.body <= r.value.close
    ensures r.Some? ==> FenceAt(s, r.value.close)
  {
    if !FenceAt(s, i) then None
    else
      match BodyStart(s, i + 3, kind)
      case None => None
      case Some(b) =>
        match FindFence(s, b)
        case None => None
        case Some(c) => Some(Span(b, c))
  }

  /** `re.search` from index `from`: the leftmost match at or after it. */
  function Search(s: string, from: nat, kind: Opener): (r: Option<(nat, Span)>)
    ensures r.Some? ==> from <= r.value.0 && MatchAt(s, r.value.0, kind) == Some(r.value.1)
    ensures r.Some? ==> forall q :: from <= q < r.value.0 ==> MatchAt(s, q, kind).None?
    ensures r.None? ==> forall q :: from <= q ==> MatchAt(s, q, kind).None?
    decreases |s| - from
  {
    if from >= |s| then None
    else
      match MatchAt(s, from, kind)
      case Some(sp) => Some((from, sp))
      case None => Search(s, from + 1, kind)
  }

  /** The leftmost match at or after `from` is the one at `p` when none starts in between. */
  lemma SearchFirst(s: string, from: nat, p: nat, kind: Opener, sp: Span)
    requires from <= p && MatchAt(s, p, kind) == Some(sp)
    requires forall q :: from <= q < p ==> MatchAt(s, q, kind).None?
    ensures Search(s, from, kind) == Some((p, sp))
  {
    var r := Search(s, from, kind);
    assert r.Some? && !(r.value.0 < p) && !(p < r.value.0);
  }

  /** `re.sub(pattern, r"\1", s[i..])` for the OptionalSparql pattern: the text up to the
      leftmost match is copied, the match is replaced by its body, and the replacement goes
      on after the closing fence. */
  function SubFrom(s: string, i: nat): string
    decreases |s| - i
  {
    if i >= |s| then []
    else
      match Search(s, i, OptionalSparql)
      case None => s[i..]
      case Some((p, sp)) => s[i..p] + s[sp.body..sp.close] + SubFrom(s, sp.close + 3)
  }

  /** Every fenced block of `s` replaced by its body. */
  function StripFences(s: string): string
  {
    SubFrom(s, 0)
  }

  ghost predicate NoFence(s: string)
  {
    forall j :: !FenceAt(s, j)
  }

  /** Any two fences of `s` overlap, so no block can be closed. */
  ghost predicate NoClosedFence(s: string)
  {
    forall i, j :: FenceAt(s, i) && FenceAt(s, j) && i <= j ==> j < i + 3
  }

  /** Two fences that do not overlap always make a block under the patterns whose opener
      cannot fail. */
  lemma ClosedFenceMatches(s: string, i: nat, j: nat, kind: Opener)
    requires kind != SparqlThenSpace
    ensures FenceAt(s, i) && FenceAt(s, j) && i + 3 <= j ==> MatchAt(s, i, kind).Some?
  {
    if FenceAt(s, i) && FenceAt(s, j) && i + 3 <= j {
      var b := BodyStart(s, i + 3, kind).value;
      assert s[j] == '`';
    }
  }

  /** A block is delimited by two fences that do not overlap. */
  lemma MatchSpansTwoFences(s: string, q: nat, kind: Opener)
    ensures var m := MatchAt(s, q, kind);
            m.Some? ==> FenceAt(s, q) && FenceAt(s, m.value.close) && q + 3 <= m.value.close
  {
  }

  /** Where no two fences of the text from `i` on are apart, no block starts there. */
  lemma NoBlockFrom(s: string, i: nat)
    requires i <= |s| && NoClosedFence(s[i..])
    ensures Search(s, i, OptionalSparql).None?
  {
    var t := s[i..];
    forall q | i <= q
      ensures MatchAt(s, q, OptionalSparql).None?
    {
      MatchSpansTwoFences(s, q, OptionalSparql);
      FenceInSuffix(s, i, q);
      var m := MatchAt(s, q, OptionalSparql);
      if m.Some? {
        FenceInSuffix(s, i, m.value.close);
      }
    }
  }

  /** A fence at or after `i` is a fence of the text from `i` on. */
  lemma FenceInSuffix(s: string, i: nat, x: nat)
    requires i <= x && i <= |s|
    ensures FenceAt(s, x) <==> FenceAt(s[i..], x - i)
  {
    if x + 3 <= |s| {
      assert s[i..][x - i] == s[x] && s[i..][x - i + 1] == s[x + 1] && s[i..][x - i + 2] == s[x + 2];
    }
  }

  /** Text in which no two fences are apart, in particular text without three backquotes in
      a row, comes out of the fence stripping unchanged. */
  lemma NoClosedFenceUnchanged(s: string)
    requires NoClosedFence(s)
    ensures StripFences(s) == s
  {
    assert s[0..] == s;
    NoBlockFrom(s, 0);
  }

  // ---------------------------------------------------------------------------------------
  // The stripped text has no closed fence left, so stripping twice is stripping once.

  lemma FenceInConcat(x: string, t: string, i: int)
    requires NoFence(x) && (x == [] || x[|x| - 1] != '`')
    requires FenceAt(x + t, i)
    ensures i >= |x| && FenceAt(t, i - |x|)
  {
    assert !FenceAt(x, i);
    assert |x| > 0 ==> (x + t)[|x| - 1] == x[|x| - 1];
  }

  lemma PrefixKeepsNoClosedFence(x: string, t: string)
    requires NoFence(x) && (x == [] || x[|x| - 1] != '`')
    requires NoClosedFence(t)
    ensures NoClosedFence(x + t)
  {
    forall i, j | FenceAt(x + t, i) && FenceAt(x + t, j) && i <= j
      ensures j < i + 3
    {
      FenceInConcat(x, t, i);
      FenceInConcat(x, t, j);
      assert FenceAt(t, i - |x|) && FenceAt(t, j - |x|);
    }
  }

  /** Where no block starts at or after `i`, the rest of `s` has no closed fence. */
  lemma TailNoClosedFence(s: string, i: nat)
    requires i <= |s|
    requires forall q :: i <= q ==> MatchAt(s, q, OptionalSparql).None?
    ensures NoClosedFence(s[i..])
  {
    var t := s[i..];
    forall a, b | FenceAt(t, a) && FenceAt(t, b) && a <= b
      ensures b < a + 3
    {
      FenceInSuffix(s, i, i + a);
      FenceInSuffix(s, i, i + b);
      ClosedFenceMatches(s, i + a, i + b, OptionalSparql);
    }
  }

  /** The body of a block holds no fence and does not end with a backquote. */
  lemma BodyIsClean(s: string, i: nat, sp: Span)
    requires MatchAt(s, i, OptionalSparql) == Some(sp)
    ensures NoFence(s[sp.body..sp.close])
    ensures sp.body < sp.close ==> s[sp.close - 1] != '`'
  {
    var body := s[sp.body..sp.close];
    forall x
      ensures !FenceAt(body, x)
    {
      assert FenceAt(body, x) ==> FenceAt(s, sp.body + x);
    }
    assert sp.body < sp.close && s[sp.close - 1] == '`' ==> FenceAt(s, sp.close - 1);
  }

  /** The text copied before the leftmost block holds no fence and does not end with a
      backquote: a fence there would open a block that the closing fence completes. */
  lemma PrefixIsClean(s: string, i: nat, p: nat, sp: Span)
    requires i <= p
    requires MatchAt(s, p, OptionalSparql) == Some(sp)
    requires forall q :: i <= q < p ==> MatchAt(s, q, OptionalSparql).None?
    ensures NoFence(s[i..p])
    ensures i < p ==> s[p - 1] != '`'
  {
    var pre := s[i..p];
    var c := sp.close;
    forall x: nat
      ensures !FenceAt(pre, x)
    {
      assert FenceAt(pre, x) ==> FenceAt(s, i + x);
      ClosedFenceMatches(s, i + x, c, OptionalSparql);
    }
    if i < p {
      assert s[p - 1] == '`' ==> FenceAt(s, p - 1);
      ClosedFenceMatches(s, p - 1, c, OptionalSparql);
    }
  }

  /** Copying the text before the leftmost block and the block's body in front of text with
      no closed fence leaves no closed fence. */
  lemma PiecesClean(s: string, i: nat, p: nat, sp: Span, rest: string)
    requires i <= p
    requires MatchAt(s, p, OptionalSparql) == Some(sp)
    requires forall q :: i <= q < p ==> MatchAt(s, q, OptionalSparql).None?
    requires NoClosedFence(rest)
    ensures NoClosedFence(s[i..p] + s[sp.body..sp.close] + rest)
  {
    var body := s[sp.body..sp.close];
    BodyIsClean(s, p, sp);
    PrefixKeepsNoClosedFence(body, rest);
    PrefixIsClean(s, i, p, sp);
    PrefixKeepsNoClosedFence(s[i..p], body + rest);
    AppendAssoc(s[i..p], body, rest);
  }

  lemma {:induction false} SubFromNoClosedFence(s: string, i: nat)
    ensures NoClosedFence(SubFrom(s, i))
    decreases |s| - i
  {
    if i >= |s| {
      assert SubFrom(s, i) == [];
    } else {
      match Search(s, i, OptionalSparql)
      case None =>
        TailNoClosedFence(s, i);
      case Some((p, sp)) =>
        SubFromNoClosedFence(s, sp.close + 3);
        PiecesClean(s, i, p, sp, SubFrom(s, sp.close + 3));
    }
  }

  /** No block can be matched in the result of the fence stripping. */
  lemma StripFencesLeavesNoBlock(s: string)
    ensures NoClosedFence(StripFences(s))
  {
    SubFromNoClosedFence(s, 0);
  }

  /** `re.sub` of the fence pattern is idempotent. */
  lemma StripFencesIdempotent(s: string)
    ensures StripFences(StripFences(s)) == StripFences(s)
  {
    StripFencesLeavesNoBlock(s);
    NoClosedFenceUnchanged(StripFences(s));
  }

  // ---------------------------------------------------------------------------------------
  // A single fenced block between plain text.

  predicate NoBackquote(s: string)
  {
    forall j :: 0 <= j < |s| ==> s[j] != '`'
  }

  /** The opening fence with the optional tag, followed by a line break. */
  function Head(tagged: bool): string
  {
    if tagged then "```sparql\n" else "```\n"
  }

  /** `pre`, a block holding `body`, then `post`. */
  function Fenced(pre: string, tagged: bool, body: string, post: string): string
  {
    pre + Head(tagged) + body + "```" + post
  }

  /** Where the parts of `Fenced(pre, tagged, body, post)` lie. */
  lemma FencedParts(pre: string, tagged: bool, body: string, post: string)
    ensures var s := Fenced(pre, tagged, body, post);
            var b := |pre| + |Head(tagged)|;
            var c := b + |body|;
            && |s| == c + 3 + |post|
            && s[..|pre|] == pre && s[b..c] == body && s[c + 3..] == post
            && (forall j :: 0 <= j < |pre| ==> s[j] == pre[j])
            && (forall j :: |pre| <= j < b ==> s[j] == Head(tagged)[j - |pre|])
            && (forall j :: b <= j < c ==> s[j] == body[j - b])
            && s[c] == '`' && s[c + 1] == '`' && s[c + 2] == '`'
            && (forall j :: c + 3 <= j < |s| ==> s[j] == post[j - (c + 3)])
  {
    var s := Fenced(pre, tagged, body, post);
    var b := |pre| + |Head(tagged)|;
    var c := b + |body|;
    assert s == pre + (Head(tagged) + (body + ("```" + post)));
  }

  /** The three parts of `Fenced(pre, tagged, body, post)` the fence stripping keeps. */
  lemma FencedSlices(pre: string, tagged: bool, body: string, post: string)
    ensures var s := Fenced(pre, tagged, body, post);
            var b := |pre| + |Head(tagged)|;
            var c := b + |body|;
            c + 3 <= |s| && s[..|pre|] == pre && s[b..c] == body && s[c + 3..] == post
  {
    FencedParts(pre, tagged, body, post);
  }

  /** The fences of a block from its opening one to its closing one are those two,
      whatever text comes before it. */
  lemma FencedFencesAfter(pre: string, tagged: bool, body: string, post: string)
    requires NoBackquote(body)
    ensures var s := Fenced(pre, tagged, body, post);
            var c := |pre| + |Head(tagged)| + |body|;
            && FenceAt(s, |pre|) && FenceAt(s, c)
            && (forall q :: |pre| < q < c ==> !FenceAt(s, q))
  {
    FencedParts(pre, tagged, body, post);
    var s := Fenced(pre, tagged, body, post);
    var o := |pre|;
    assert s[o] == '`' && s[o + 1] == '`' && s[o + 2] == '`' && s[o + 3] != '`';
    var h := Head(tagged);
    assert forall j :: 3 <= j < |h| ==> h[j] != '`';
  }

  /** The fences of a block up to its closing one are the two that delimit it. */
  lemma FencedFences(pre: string, tagged: bool, body: string, post: string)
    requires NoBackquote(pre) && NoBackquote(body)
    ensures var s := Fenced(pre, tagged, body, post);
            var c := |pre| + |Head(tagged)| + |body|;
            && FenceAt(s, |pre|) && FenceAt(s, c)
            && (forall q :: q <= c && FenceAt(s, q) ==> q == |pre| || q == c)
  {
    FencedParts(pre, tagged, body, post);
    FencedFencesAfter(pre, tagged, body, post);
    var s := Fenced(pre, tagged, body, post);
    assert forall q :: 0 <= q < |pre| ==> s[q] != '`';
  }

  /** After a tagged opening fence and a line break the body starts. */
  lemma TaggedOpener(s: string, o: nat, kind: Opener)
    requires o + 11 <= |s|
    requires s[o + 3] == 's' && s[o + 4] == 'p' && s[o + 5] == 'a'
    requires s[o + 6] == 'r' && s[o + 7] == 'q' && s[o + 8] == 'l'
    requires s[o + 9] == '\n' && !IsSpace(s[o + 10])
    ensures BodyStart(s, o + 3, kind) == Some(if kind == Bare then o + 3 else o + 10)
  {
    assert SparqlAt(s, o + 3);
    assert SkipSpace(s, o + 10) == o + 10;
    assert SkipSpace(s, o + 9) == o + 10;
  }

  /** After an untagged opening fence and a line break the body starts, unless the pattern
      demands the tag. */
  lemma UntaggedOpener(s: string, o: nat, kind: Opener)
    requires o + 5 <= |s|
    requires s[o + 3] == '\n' && !IsSpace(s[o + 4])
    ensures BodyStart(s, o + 3, kind) == (if kind != SparqlThenSpace then Some(o + 4) else None)
  {
    assert !LetterMatches(s[o + 3 + 0], "sparql"[0]);
    assert !SparqlAt(s, o + 3);
    assert SkipSpace(s, o + 4) == o + 4;
  }

  /** A match assembled from its opener and its closing fence. */
  lemma MatchFromParts(s: string, i: nat, kind: Opener, b: nat, c: nat)
    requires FenceAt(s, i) && BodyStart(s, i + 3, kind) == Some(b) && FindFence(s, b) == Some(c)
    ensures MatchAt(s, i, kind) == Some(Span(b, c))
  {
  }

  /** The match of a tagged block anchored at its opening fence, whatever text comes
      before it: its body is the block's body, except under the pattern that takes no tag, which keeps the tag in the body. */
  lemma TaggedMatch(pre: string, body: string, post: string, kind: Opener)
    requires NoBackquote(body) && (body == [] || !IsSpace(body[0]))
    ensures var b := |pre| + |Head(true)|;
            MatchAt(Fenced(pre, true, body, post), |pre|, kind) ==
            Some(Span(if kind == Bare then |pre| + 3 else b, b + |body|))
  {
    FencedParts(pre, true, body, post);
    FencedFencesAfter(pre, true, body, post);
    var s := Fenced(pre, true, body, post);
    var o := |pre|;
    var b := o + |Head(true)|;
    var c := b + |body|;
    assert s[o + 3] == 's' && s[o + 4] == 'p' && s[o + 5] == 'a';
    assert s[o + 6] == 'r' && s[o + 7] == 'q' && s[o + 8] == 'l' && s[o + 9] == '\n';
    assert !IsSpace(s[b]);
    TaggedOpener(s, o, kind);
    var start := if kind == Bare then o + 3 else b;
    FindFenceFirst(s, start, c);
    MatchFromParts(s, o, kind, start, c);
  }

  /** The match of an untagged block anchored at its opening fence, whatever text comes
      before it: its body is the block's body, unless the pattern demands the tag. */
  lemma UntaggedMatch(pre: string, body: string, post: string, kind: Opener)
    requires NoBackquote(body) && (body == [] || !IsSpace(body[0]))
    ensures var b := |pre| + |Head(false)|;
            MatchAt(Fenced(pre, false, body, post), |pre|, kind) ==
            if kind == SparqlThenSpace then None else Some(Span(b, b + |body|))
  {
    FencedParts(pre, false, body, post);
    FencedFencesAfter(pre, false, body, post);
    var s := Fenced(pre, false, body, post);
    var o := |pre|;
    var b := o + |Head(false)|;
    assert s[o + 3] == '\n';
    assert !IsSpace(s[b]);
    UntaggedOpener(s, o, kind);
    if kind != SparqlThenSpace {
      FindFenceFirst(s, b, b + |body|);
      MatchFromParts(s, o, kind, b, b + |body|);
    }
  }

  /** The match of a block anchored at its opening fence, whatever text comes before it:
      its body is the block's body,
      unless the pattern demands a tag the block does not carry, or takes no tag and so
      keeps the block's tag in the body. */
  lemma FencedMatch(pre: string, tagged: bool, body: string, post: string, kind: Opener)
    requires NoBackquote(body) && (body == [] || !IsSpace(body[0]))
    ensures var b := |pre| + |Head(tagged)|;
            MatchAt(Fenced(pre, tagged, body, post), |pre|, kind) ==
            if !tagged && kind == SparqlThenSpace then None
            else if tagged && kind == Bare then Some(Span(|pre| + 3, b + |body|))
            else Some(Span(b, b + |body|))
  {
    if tagged {
      TaggedMatch(pre, body, post, kind);
    } else {
      UntaggedMatch(pre, body, post, kind);
    }
  }

  /** The replacement in a text whose leftmost block starts at `o`, before which there is no
      backquote, and after which no block is closed. */
  lemma StripOneBlock(s: string, o: nat, sp: Span)
    requires o <= |s| && NoBackquote(s[..o])
    requires MatchAt(s, o, OptionalSparql) == Some(sp)
    requires NoClosedFence(s[sp.close + 3..])
    ensures StripFences(s) == s[..o] + s[sp.body..sp.close] + s[sp.close + 3..]
  {
    forall q | 0 <= q < o
      ensures MatchAt(s, q, OptionalSparql).None?
    {
      assert s[..o][q] == s[q];
    }
    SearchFirst(s, 0, o, OptionalSparql, sp);
    NoBlockFrom(s, sp.close + 3);
    assert SubFrom(s, sp.close + 3) == s[sp.close + 3..];
  }

  /** `re.sub` replaces a block by its body and keeps the text around it, when the text
      before it holds no backquote and the text after it closes no further block. */
  lemma StripFencedBlock(pre: string, tagged: bool, body: string, post: string)
    requires NoBackquote(pre) && NoBackquote(body) && (body == [] || !IsSpace(body[0]))
    requires NoClosedFence(post)
    ensures StripFences(Fenced(pre, tagged, body, post)) == pre + body + post
  {
    FencedSlices(pre, tagged, body, post);
    FencedMatch(pre, tagged, body, post, OptionalSparql);
    var b := |pre| + |Head(tagged)|;
    StripOneBlock(Fenced(pre, tagged, body, post), |pre|, Span(b, b + |body|));
  }
}
