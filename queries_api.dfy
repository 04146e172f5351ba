/**
 * The named-query service: the query text clean-up applied before a query is sent to the
 * triple store (`_normalize_query`), the insertion of the two default prefix declarations
 * (`_ensure_prefixes`), the catalogue of named queries and the three request handlers.
 */
module QueriesApi {
  import opened Wrappers
  import opened Text
  import opened Json
  import opened Fences
  import opened SparqlResults
  import opened QueryCatalog
  import opened Sorting

  // ---------------------------------------------------------------------------------------
  // Quote normalisation

  /** The typographic quotes the clean-up replaces: left and right double quote and the
      right single quote (the left single quote is kept). */
  predicate IsCurly(c: char)
  {
    c == '\U{201C}' || c == '\U{201D}' || c == '\U{2019}'
  }

  predicate NoCurly(s: string)
  {
    forall i :: 0 <= i < |s| ==> !IsCurly(s[i])
  }

  function StraightQuote(c: char): char
  {
    if c == '\U{2019}' then '\'' else if IsCurly(c) then '"' else c
  }

  /** The three chained `str.replace` calls. */
  function ReplaceQuotes(s: string): (r: string)
    ensures |r| == |s| && NoCurly(r)
    ensures forall i :: 0 <= i < |s| && !IsCurly(s[i]) ==> r[i] == s[i]
    ensures forall i :: 0 <= i < |s| && IsCurly(s[i]) ==>
      r[i] == (if s[i] == '\U{2019}' then '\'' else '"')
  {
    seq(|s|, i requires 0 <= i < |s| => StraightQuote(s[i]))
  }

  /** Replacing quotes neither creates nor removes a backquote. */
  lemma ReplaceQuotesKeepsFences(s: string)
    requires NoClosedFence(s)
    ensures NoClosedFence(ReplaceQuotes(s))
  {
    var r := ReplaceQuotes(s);
    assert forall i :: FenceAt(r, i) ==> FenceAt(s, i);
  }

  /** Text without curly quotes is left alone. */
  lemma ReplaceQuotesNoCurly(s: string)
    requires NoCurly(s)
    ensures ReplaceQuotes(s) == s
  {
  }

  /** An infix of a text without a closed block has none either. */
  lemma InfixKeepsNoClosedFence(s: string, a: nat, b: nat)
    requires a <= b <= |s| && NoClosedFence(s)
    ensures NoClosedFence(s[a..b])
  {
    var t := s[a..b];
    assert forall x :: FenceAt(t, x) ==> FenceAt(s, a + x);
  }

  // ---------------------------------------------------------------------------------------
  // `_normalize_query`

  /** Empty text stays empty; otherwise every fenced block is replaced by its body, the
      typographic quotes are straightened and the surrounding whitespace is stripped. */
  function NormalizeQuery(q: string): string
  {
    if q == [] then "" else Strip(ReplaceQuotes(StripFences(q)))
  }

  /** A normalised query is trimmed, has straight quotes only and holds no closed block. */
  lemma NormalizeClean(q: string)
    ensures var r := NormalizeQuery(q);
            Trimmed(r) && NoCurly(r) && NoClosedFence(r)
  {
    if q != [] {
      var s := StripFences(q);
      var t := ReplaceQuotes(s);
      assert NormalizeQuery(q) == Strip(t);
      StripFencesLeavesNoBlock(q);
      ReplaceQuotesKeepsFences(s);
      StripKeepsClean(t);
    }
  }

  /** Stripping a text with straight quotes only and no closed block keeps both. */
  lemma StripKeepsClean(t: string)
    requires NoCurly(t) && NoClosedFence(t)
    ensures var r := Strip(t);
            Trimmed(r) && NoCurly(r) && NoClosedFence(r)
  {
    var r := Strip(t);
    var a := SkipSpace(t, 0);
    StripInfix(t);
    InfixKeepsNoClosedFence(t, a, a + |r|);
    InfixKeepsNoCurly(t, a, a + |r|);
  }

  /** An infix of a text with straight quotes only has straight quotes only. */
  lemma InfixKeepsNoCurly(s: string, a: nat, b: nat)
    requires a <= b <= |s| && NoCurly(s)
    ensures NoCurly(s[a..b])
  {
  }

  /** Normalising twice is normalising once. */
  lemma NormalizeIdempotent(q: string)
    ensures NormalizeQuery(NormalizeQuery(q)) == NormalizeQuery(q)
  {
    var r := NormalizeQuery(q);
    NormalizeClean(q);
    if r != [] {
      NoClosedFenceUnchanged(r);
      ReplaceQuotesNoCurly(r);
      StripTrimmed(r);
    }
  }

  /** Text without a closed block only has its quotes straightened and is stripped. */
  lemma NormalizeWithoutBlock(q: string)
    requires NoClosedFence(q)
    ensures NormalizeQuery(q) == Strip(ReplaceQuotes(q))
  {
    if q != [] {
      NoClosedFenceUnchanged(q);
    }
  }

  /** A query pasted inside one fenced block, tagged `sparql` or not, loses the fences and
      the tag, and keeps the surrounding text. */
  lemma NormalizeFencedBlock(pre: string, tagged: bool, body: string, post: string)
    requires NoBackquote(pre) && NoBackquote(body) && (body == [] || !IsSpace(body[0]))
    requires NoClosedFence(post)
    ensures NormalizeQuery(Fenced(pre, tagged, body, post)) ==
            Strip(ReplaceQuotes(pre + body + post))
  {
    StripFencedBlock(pre, tagged, body, post);
    assert Fenced(pre, tagged, body, post) != [];
  }

  // ---------------------------------------------------------------------------------------
  // `_ensure_prefixes`

  const ExIri: string := "http://example.org/"
  const XsdIri: string := "http://www.w3.org/2001/XMLSchema#"

  /** A SPARQL prefix declaration line as the default list spells it. */
  function PrefixLine(name: string, iri: string): string
  {
    "PREFIX " + name + ": <" + iri + ">"
  }

  /** The two default declaration lines. */
  const ExLine: string := PrefixLine("ex", ExIri)
  const XsdLine: string := PrefixLine("xsd", XsdIri)

  /** Index `p` starts a line (the `^` of a multi-line pattern). */
  predicate LineStart(s: string, p: nat)
  {
    p == 0 || (p <= |s| && s[p - 1] == '\n')
  }

  /** `(?im)^\s*prefix\s+NAME\s*:` matches at `p`.  Every whitespace run is followed by a
      letter or the colon, so the greedy run is the only one that can succeed. */
  predicate DeclAt(s: string, p: nat, name: string)
  {
    p <= |s| && LineStart(s, p) && KeywordAt(s, SkipSpace(s, p), name)
  }

  /** `prefix\s+NAME\s*:` at `k`. */
  predicate KeywordAt(s: string, k: nat, name: string)
    requires k <= |s|
  {
    WordAt(s, k, "prefix") && NameAfter(s, k + 6, name)
  }

  /** `\s+NAME\s*:` at `k`. */
  predicate NameAfter(s: string, k: nat, name: string)
    requires k <= |s|
  {
    var m := SkipSpace(s, k);
    k < m && WordAt(s, m, name) && ColonAfter(s, m + |name|)
  }

  /** `\s*:` at `k`. */
  predicate ColonAfter(s: string, k: nat)
    requires k <= |s|
  {
    var e := SkipSpace(s, k);
    e < |s| && s[e] == ':'
  }

  /** `re.search(...) is not None` for a prefix declaration of `name`. */
  predicate Declares(s: string, name: string)
  {
    exists p | 0 <= p <= |s| :: DeclAt(s, p, name)
  }

  /** `NAME + ":" in s`: the query uses the prefix. */
  predicate Uses(s: string, name: string)
  {
    Contains(s, name + ":")
  }

  predicate NeedsEx(q: string)  { Uses(q, "ex") && !Declares(q, "ex") }
  predicate NeedsXsd(q: string) { Uses(q, "xsd") && !Declares(q, "xsd") }

  /** The header lines to add, in the order of the default list. */
  function PrefixHeader(needEx: bool, needXsd: bool): seq<string>
  {
    (if needEx then [ExLine] else []) + (if needXsd then [XsdLine] else [])
  }

  /** The query behind the joined header, when there is one. */
  function WithHeader(needEx: bool, needXsd: bool, q: string): string
  {
    if needEx || needXsd then Join(PrefixHeader(needEx, needXsd), "\n") + "\n" + q else q
  }

  /** `_ensure_prefixes`: declares the default prefixes the query uses but does not declare. */
  function EnsurePrefixes(q: string): string
  {
    WithHeader(NeedsEx(q), NeedsXsd(q), q)
  }

  /** Whitespace skipping does not look back past the start of the suffix. */
  lemma SkipSpaceShift(h: string, q: string, k: nat)
    requires k <= |q|
    ensures SkipSpace(h + q, |h| + k) == |h| + SkipSpace(q, k)
    decreases |q| - k
  {
    if k < |q| && IsSpace(q[k]) {
      assert (h + q)[|h| + k] == q[k];
      SkipSpaceShift(h, q, k + 1);
    } else if k < |q| {
      assert (h + q)[|h| + k] == q[k];
    }
  }

  lemma WordAtShift(h: string, q: string, k: nat, w: string)
    requires WordAt(q, k, w)
    ensures WordAt(h + q, |h| + k, w)
  {
    forall i | 0 <= i < |w|
      ensures LetterMatches((h + q)[|h| + k + i], w[i])
    {
      assert (h + q)[|h| + k + i] == q[k + i];
    }
  }

  lemma ColonAfterShift(h: string, q: string, k: nat)
    requires k <= |q| && ColonAfter(q, k)
    ensures ColonAfter(h + q, |h| + k)
  {
    SkipSpaceShift(h, q, k);
    var e := SkipSpace(q, k);
    assert (h + q)[|h| + e] == q[e];
  }

  lemma NameAfterShift(h: string, q: string, k: nat, name: string)
    requires k <= |q| && NameAfter(q, k, name)
    ensures NameAfter(h + q, |h| + k, name)
  {
    SkipSpaceShift(h, q, k);
    var m := SkipSpace(q, k);
    WordAtShift(h, q, m, name);
    ColonAfterShift(h, q, m + |name|);
  }

  /** A declaration stays a declaration behind text that ends a line. */
  lemma DeclShift(h: string, q: string, p: nat, name: string)
    requires h != [] && h[|h| - 1] == '\n'
    requires DeclAt(q, p, name)
    ensures DeclAt(h + q, |h| + p, name)
  {
    SkipSpaceShift(h, q, p);
    KeywordAtShift(h, q, SkipSpace(q, p), name);
    assert p > 0 ==> (h + q)[|h| + p - 1] == q[p - 1];
  }

  lemma KeywordAtShift(h: string, q: string, k: nat, name: string)
    requires k <= |q| && KeywordAt(q, k, name)
    ensures KeywordAt(h + q, |h| + k, name)
  {
    WordAtShift(h, q, k, "prefix");
    NameAfterShift(h, q, k + 6, name);
  }

  lemma DeclaresShift(h: string, q: string, name: string)
    requires h != [] && h[|h| - 1] == '\n'
    requires Declares(q, name)
    ensures Declares(h + q, name)
  {
    var p :| 0 <= p <= |q| && DeclAt(q, p, name);
    DeclShift(h, q, p, name);
  }

  /** A declaration line ended by a line break declares its prefix at the start of the
      text. */
  lemma PrefixLineDeclares(name: string, iri: string, rest: string)
    requires LowerAsciiWord(name) && name != []
    ensures DeclAt(PrefixLine(name, iri) + "\n" + rest, 0, name)
  {
    var s := PrefixLine(name, iri) + "\n" + rest;
    PrefixLineKeyword(name, iri, rest);
    assert s[0] == 'P';
    assert SkipSpace(s, 0) == 0;
  }

  lemma PrefixLineKeyword(name: string, iri: string, rest: string)
    requires LowerAsciiWord(name) && name != []
    ensures KeywordAt(PrefixLine(name, iri) + "\n" + rest, 0, name)
  {
    var s := PrefixLine(name, iri) + "\n" + rest;
    PrefixLineName(name, iri, rest);
    assert s[..7] == "PREFIX ";
    assert WordAt(s, 0, "prefix");
  }

  lemma PrefixLineName(name: string, iri: string, rest: string)
    requires LowerAsciiWord(name) && name != []
    ensures NameAfter(PrefixLine(name, iri) + "\n" + rest, 6, name)
  {
    var s := PrefixLine(name, iri) + "\n" + rest;
    PrefixLineColon(name, iri, rest);
    assert forall i :: 0 <= i < |name| ==> s[7 + i] == name[i];
    assert s[6] == ' ';
    assert SkipSpace(s, 7) == 7;
  }

  lemma PrefixLineColon(name: string, iri: string, rest: string)
    ensures ColonAfter(PrefixLine(name, iri) + "\n" + rest, 7 + |name|)
  {
    var s := PrefixLine(name, iri) + "\n" + rest;
    var n := 7 + |name|;
    assert s[n] == ':';
    assert SkipSpace(s, n) == n;
  }

  /** The `xsd` line does not use `ex`: its only lower-case `x` is followed by `s`. */
  lemma XsdLineUsesNoEx()
    ensures !Uses(XsdLine, "ex")
  {
    var x := XsdLine;
    assert "ex" + ":" == "ex:";
    assert 'x' !in XsdIri;
    assert forall j :: 0 <= j < |x| && x[j] == 'x' ==> j == 7;
    forall i | 0 <= i <= |x| - 3
      ensures !OccursAt(x, "ex:", i)
    {
      assert x[i..i + 3][1] == x[i + 1];
      assert x[i..i + 3][2] == x[i + 2];
    }
  }

  /** The `ex` line does not use `xsd`: it holds no lower-case `s`. */
  lemma ExLineUsesNoXsd()
    ensures !Uses(ExLine, "xsd")
  {
    var e := ExLine;
    assert "xsd" + ":" == "xsd:";
    assert 's' !in ExIri;
    assert 's' !in e;
    forall i | 0 <= i <= |e| - 4
      ensures !OccursAt(e, "xsd:", i)
    {
      assert e[i..i + 4][1] == e[i + 1];
    }
  }

  /** An occurrence of a word without a line break does not straddle the line break that
      joins `h` and `q`. */
  lemma NewlineBetween(h: string, q: string, t: string, i: nat)
    requires forall j :: 0 <= j < |t| ==> t[j] != '\n'
    requires OccursAt(h + "\n" + q, t, i)
    ensures i + |t| <= |h| || |h| < i
  {
    var s := h + "\n" + q;
    assert s[|h|] == '\n';
    assert forall j :: i <= j < i + |t| ==> s[j] == t[j - i];
  }

  /** A word without a line break found in `h + "\n" + q` lies inside `h` or inside `q`. */
  lemma ContainsAcrossNewline(h: string, q: string, t: string)
    requires forall j :: 0 <= j < |t| ==> t[j] != '\n'
    requires Contains(h + "\n" + q, t)
    ensures Contains(h, t) || Contains(q, t)
  {
    var s := h + "\n" + q;
    var i :| 0 <= i <= |s| - |t| && OccursAt(s, t, i);
    NewlineBetween(h, q, t, i);
    if i + |t| <= |h| {
      assert s[i..i + |t|] == h[i..i + |t|];
      assert OccursAt(h, t, i);
    } else if i <= |h| {
      assert false;
    } else {
      assert s[i..i + |t|] == q[i - |h| - 1..i - |h| - 1 + |t|];
      assert OccursAt(q, t, i - |h| - 1);
    }
  }

  /** The text built in each case: the missing lines, `ex` before `xsd`, each ended by a
      line break, in front of the unchanged query. */
  lemma WithHeaderCases(needEx: bool, needXsd: bool, q: string)
    ensures var r := WithHeader(needEx, needXsd, q);
      && (needEx && needXsd ==> r == (ExLine + "\n") + (XsdLine + "\n" + q))
      && (needEx && !needXsd ==> r == ExLine + "\n" + q)
      && (!needEx && needXsd ==> r == XsdLine + "\n" + q)
      && (!needEx && !needXsd ==> r == q)
  {
    if needEx && needXsd {
      var hdr := PrefixHeader(needEx, needXsd);
      assert hdr[1..] == [XsdLine];
      assert Join(hdr, "\n") == (ExLine + "\n") + XsdLine;
      Regroup(ExLine + "\n", XsdLine, q);
    }
  }

  lemma Regroup(a: string, x: string, q: string)
    ensures (a + x) + "\n" + q == a + (x + "\n" + q)
  {
  }

  /** A line declaring `n1` in front of text declaring `n2` at its start declares both. */
  lemma TwoLinesDeclare(h: string, t: string, n1: string, n2: string)
    requires h != [] && h[|h| - 1] == '\n'
    requires DeclAt(h + t, 0, n1) && DeclAt(t, 0, n2)
    ensures Declares(h + t, n1) && Declares(h + t, n2)
  {
    DeclaresAt(h + t, 0, n1);
    DeclShift(h, t, 0, n2);
    DeclaresAt(h + t, |h|, n2);
  }

  /** A declaration found at `p` is found by the search. */
  lemma DeclaresAt(s: string, p: nat, name: string)
    requires DeclAt(s, p, name)
    ensures Declares(s, name)
  {
  }

  /** One line in front of `q` that declares `name` and does not use `other`: `name` is
      declared, and `other` is used only where `q` uses it. */
  lemma OneLineDeclares(line: string, q: string, name: string, other: string)
    requires LowerAsciiWord(other)
    requires DeclAt(line + "\n" + q, 0, name)
    requires !Uses(line, other)
    requires Uses(q, other) ==> Declares(q, other)
    ensures var r := line + "\n" + q;
            Declares(r, name) && (Uses(r, other) ==> Declares(r, other))
  {
    var r := line + "\n" + q;
    DeclaresAt(r, 0, name);
    if Uses(r, other) {
      assert forall j :: 0 <= j < |other| ==> (other + ":")[j] == other[j];
      ContainsAcrossNewline(line, q, other + ":");
      DeclaresShift(line + "\n", q, other);
    }
  }

  /** The inserted lines declare every prefix the text uses, given that `q` declares each
      one it uses and for which no line is inserted; the query follows them unchanged. */
  lemma WithHeaderDeclares(needEx: bool, needXsd: bool, q: string)
    requires !needEx ==> (Uses(q, "ex") ==> Declares(q, "ex"))
    requires !needXsd ==> (Uses(q, "xsd") ==> Declares(q, "xsd"))
    ensures var r := WithHeader(needEx, needXsd, q);
      && |q| <= |r| && r[|r| - |q|..] == q
      && (Uses(r, "ex") ==> Declares(r, "ex"))
      && (Uses(r, "xsd") ==> Declares(r, "xsd"))
  {
    WithHeaderCases(needEx, needXsd, q);
    if needEx && needXsd {
      BothLinesDeclare(q);
    } else if needEx {
      ExLineDeclares(q);
    } else if needXsd {
      XsdLineDeclares(q);
    }
  }

  lemma BothLinesDeclare(q: string)
    ensures var r := (ExLine + "\n") + (XsdLine + "\n" + q);
            Declares(r, "ex") && Declares(r, "xsd")
  {
    PrefixLineDeclares("ex", ExIri, XsdLine + "\n" + q);
    PrefixLineDeclares("xsd", XsdIri, q);
    TwoLinesDeclare(ExLine + "\n", XsdLine + "\n" + q, "ex", "xsd");
  }

  lemma ExLineDeclares(q: string)
    requires Uses(q, "xsd") ==> Declares(q, "xsd")
    ensures var r := ExLine + "\n" + q;
            Declares(r, "ex") && (Uses(r, "xsd") ==> Declares(r, "xsd"))
  {
    PrefixLineDeclares("ex", ExIri, q);
    ExLineUsesNoXsd();
    OneLineDeclares(ExLine, q, "ex", "xsd");
  }

  lemma XsdLineDeclares(q: string)
    requires Uses(q, "ex") ==> Declares(q, "ex")
    ensures var r := XsdLine + "\n" + q;
            Declares(r, "xsd") && (Uses(r, "ex") ==> Declares(r, "ex"))
  {
    PrefixLineDeclares("xsd", XsdIri, q);
    XsdLineUsesNoEx();
    OneLineDeclares(XsdLine, q, "xsd", "ex");
  }

  /** After the insertion every prefix the query uses is declared, and the query itself
      follows the inserted lines unchanged. */
  lemma EnsurePrefixesDeclares(q: string)
    ensures var r := EnsurePrefixes(q);
      && |q| <= |r| && r[|r| - |q|..] == q
      && (Uses(r, "ex") ==> Declares(r, "ex"))
      && (Uses(r, "xsd") ==> Declares(r, "xsd"))
  {
    WithHeaderDeclares(NeedsEx(q), NeedsXsd(q), q);
  }
  /** The text built: the `ex` line when `ex:` is used and not declared, then the `xsd` line
      when `xsd:` is used and not declared, each ended by a line break, then the query
      unchanged.  A declared prefix thus gets no second declaration. */
  lemma EnsurePrefixesHeader(q: string)
    ensures EnsurePrefixes(q) ==
      (if NeedsEx(q) then ExLine + "\n" else "") + (if NeedsXsd(q) then XsdLine + "\n" else "") + q
  {
    WithHeaderCases(NeedsEx(q), NeedsXsd(q), q);
    if NeedsEx(q) && NeedsXsd(q) {
      AppendAssoc(ExLine + "\n", XsdLine + "\n", q);
    } else if !NeedsEx(q) && !NeedsXsd(q) {
      assert "" + "" + q == q;
    }
  }

  /** The query is returned unchanged exactly when every prefix it uses is declared. */
  lemma EnsurePrefixesIdentity(q: string)
    ensures EnsurePrefixes(q) == q <==>
            (Uses(q, "ex") ==> Declares(q, "ex")) && (Uses(q, "xsd") ==> Declares(q, "xsd"))
  {
    WithHeaderCases(NeedsEx(q), NeedsXsd(q), q);
  }

  /** Inserting the missing declarations a second time adds nothing. */
  lemma EnsurePrefixesIdempotent(q: string)
    ensures EnsurePrefixes(EnsurePrefixes(q)) == EnsurePrefixes(q)
  {
    EnsurePrefixesDeclares(q);
    EnsurePrefixesIdentity(EnsurePrefixes(q));
  }

  // ---------------------------------------------------------------------------------------
  // `run_sparql` and the handlers

  /** Why `run_sparql` raised: an HTTP status error carrying the store's response, or any
      other exception. */
  datatype Failure =
    | Rejected(status: int, text: string)
    | Broken(cause: Cause)

  /** The text posted to the store for `query`. */
  function SentQuery(query: string): string
  {
    EnsurePrefixes(NormalizeQuery(query))
  }

  /** What `run_sparql` makes of the store's answer: anything but status 200 raises the
      HTTP error; otherwise the body is read as JSON and flattened. */
  function Decide(answer: StoreReply): Result<seq<Row>, Failure>
  {
    match answer
    case Unreachable(reason) => Err(Broken(ConnectionFailed(reason)))
    case Responded(status, text, body) =>
      if status != 200 then Err(Rejected(status, text))
      else
        match ReadRows(body)
        case Ok(rows) => Ok(rows)
        case Err(cause) => Err(Broken(cause))
  }

  /** `run_sparql(query)` against a store that answers each posted text. */
  function RunSparql(store: string -> StoreReply, query: string): Result<seq<Row>, Failure>
  {
    Decide(store(SentQuery(query)))
  }

  /** Rows come back exactly from a 200 answer whose body flattens, and they are the
      flattened rows; the HTTP error exactly from an answer with another status, carrying
      that status and text. */
  lemma DecideCases(answer: StoreReply)
    ensures var r := Decide(answer);
      && (r.Ok? <==> answer.Responded? && answer.status == 200 && ReadRows(answer.body).Ok?)
      && (r.Ok? ==> r.value == ReadRows(answer.body).value)
      && (r.Err? && r.error.Rejected? <==> answer.Responded? && answer.status != 200)
      && (r.Err? && r.error.Rejected? ==>
            r.error == Rejected(answer.status, answer.text))
  {
  }

  /** The JSON bodies the handlers send back. */
  datatype Body =
    | NameList(names: seq<string>)                    // the sorted catalogue names
    | NamedRows(name: string, rows: seq<Row>)         // `{name, rows}`
    | RawRows(rows: seq<Row>, query: string)          // `{rows, query}`
    | Message(error: string)                          // `{error}`
    | StoreRejected(status: int, details: string, echo: Option<string>)
                                                      // `{error: "GraphDB error", status, details[, query]}`
    | Crash(cause: Cause, echo: Option<string>)       // `{error: str(e)[, query]}`
    | FrameworkError                                  // Flask's own error page

  datatype Reply = Reply(status: int, body: Body)

  /** A handler's reply together with the text it posted to the store, if it did. */
  datatype Exchange = Exchange(reply: Reply, sent: Option<string>)

  /** The rows of a run that succeeded (none otherwise). */
  function RowsOf(outcome: Result<seq<Row>, Failure>): seq<Row>
  {
    if outcome.Ok? then outcome.value else []
  }

  /** The reply for a query the handler ran: `ok` on success, 502 for the HTTP error, 500
      for any other exception, the last two echoing the query or not. */
  function Answer(outcome: Result<seq<Row>, Failure>, ok: Body, echo: Option<string>): Reply
  {
    match outcome
    case Ok(_) => Reply(200, ok)
    case Err(Rejected(status, text)) => Reply(502, StoreRejected(status, text, echo))
    case Err(Broken(cause)) => Reply(500, Crash(cause, echo))
  }

  /** `GET /list`. */
  function List(): Reply
  {
    Reply(200, NameList(ListQueries()))
  }

  /** `GET /run?name=...`: the `name` argument, when the request has one. */
  function RunNamed(name: Option<string>, store: string -> StoreReply): Exchange
  {
    if name.None? || |name.value| == 0 then
      Exchange(Reply(400, Message("Missing ?name=...")), None)
    else RunFound(name.value, Get(name.value), store)
  }

  /** `run_named` once `QUERIES.get(n)` gave `found`: a missing or empty text is unknown. */
  function RunFound(n: string, found: Option<string>, store: string -> StoreReply): Exchange
  {
    match found
    case None => Exchange(Reply(404, Message("Unknown query name: " + n)), None)
    case Some(q) =>
      if |q| == 0 then Exchange(Reply(404, Message("Unknown query name: " + n)), None)
      else RunCatalogQuery(n, q, store)
  }

  /** The `try` block of `run_named` for the catalogue query `q` stored under `n`. */
  function RunCatalogQuery(n: string, q: string, store: string -> StoreReply): Exchange
  {
    var outcome := RunSparql(store, q);
    Exchange(Answer(outcome, NamedRows(n, RowsOf(outcome)), None), Some(SentQuery(q)))
  }

  /** The body of a `POST /run-raw` request: JSON (`None` when it does not parse) or
      anything else, read as text. */
  datatype RawRequest =
    | JsonRequest(parsed: Option<Json>)
    | TextRequest(text: string)

  /** The query text of a `/run-raw` request before normalisation, or the framework's reply
      when reading it raises: Flask's 400 for a body that is not JSON, and a 500 for an
      `AttributeError` (a truthy JSON value that is not an object) or a `TypeError` (a
      truthy `query` that is not a string, which `re.sub` refuses). */
  function RawText(req: RawRequest): Result<string, Reply>
  {
    match req
    case TextRequest(text) => Ok(text)
    case JsonRequest(None) => Err(Reply(400, FrameworkError))
    case JsonRequest(Some(j)) =>
      var d := if Truthy(j) then j else Object([]);
      if !d.Object? then Err(Reply(500, FrameworkError))
      else
        var v := GetOr(d.members, "query", String(""));
        if !Truthy(v) then Ok("")
        else if v.String? then Ok(v.s)
        else Err(Reply(500, FrameworkError))
  }

  /** The normalised query of a `/run-raw` request (a falsy `query` normalises to the empty
      text like a missing one). */
  function RawQuery(req: RawRequest): Result<string, Reply>
  {
    match RawText(req)
    case Ok(text) => Ok(NormalizeQuery(text))
    case Err(reply) => Err(reply)
  }

  /** `POST /run-raw`. */
  function RunRaw(req: RawRequest, store: string -> StoreReply): Exchange
  {
    match RawQuery(req)
    case Err(reply) => Exchange(reply, None)
    case Ok(q) => RunRawQuery(q, store)
  }

  /** `run_raw` from the emptiness check on, for the normalised query `q`. */
  function RunRawQuery(q: string, store: string -> StoreReply): Exchange
  {
    if |Strip(q)| == 0 then Exchange(Reply(400, Message("Provide a SPARQL query.")), None)
    else Exchange(RawAnswer(q, RunSparql(store, q)), Some(SentQuery(q)))
  }

  /** The reply of `run_raw` once running `q` gave `outcome`: the rows with the query, or
      the error with the query echoed. */
  function RawAnswer(q: string, outcome: Result<seq<Row>, Failure>): Reply
  {
    Answer(outcome, RawRows(RowsOf(outcome), q), Some(q))
  }

  // ---------------------------------------------------------------------------------------
  // Properties of the handlers

  /** The listing is every catalogue name once, in ascending order, with status 200. */
  lemma ListReply()
    ensures var r := List();
      && r.status == 200 && r.body.NameList?
      && |r.body.names| == |Names|
      && (forall n :: n in r.body.names <==> n in Names)
      && (forall i, j :: 0 <= i < j < |r.body.names| ==> StrLess(r.body.names[i], r.body.names[j]))
  {
    ListQueriesOrdered();
  }

  /** The status tells the outcome of the run: 200 with the rows, 502 with the store's
      status and text, 500 with the exception. */
  lemma AnswerCases(outcome: Result<seq<Row>, Failure>, ok: Body, echo: Option<string>)
    ensures var r := Answer(outcome, ok, echo);
      && (r.status == 200 <==> outcome.Ok?)
      && (r.status == 200 ==> r.body == ok)
      && (r.status == 502 <==> outcome.Err? && outcome.error.Rejected?)
      && (r.status == 502 ==>
            r.body == StoreRejected(outcome.error.status, outcome.error.text, echo))
      && (r.status == 500 <==> outcome.Err? && outcome.error.Broken?)
      && (r.status == 500 ==> r.body == Crash(outcome.error.cause, echo))
  {
  }

  /** A missing or empty name is answered 400 and a name the catalogue does not hold 404,
      both without a request to the store; every other name is run. */
  lemma RunNamedValidation(name: Option<string>, store: string -> StoreReply)
    ensures var x := RunNamed(name, store);
      && (x.reply.status == 400 <==> name.None? || name.value == "")
      && (x.reply.status == 404 <==>
            name.Some? && name.value != "" && (Get(name.value).None? || Get(name.value).value == ""))
      && (x.sent.None? <==> x.reply.status == 400 || x.reply.status == 404)
  {
    if name.Some? && |name.value| > 0 {
      RunFoundCases(name.value, Get(name.value), store);
    }
  }

  /** A name outside the catalogue is answered 404 without a request to the store, and a
      catalogue name is run on its own text. */
  lemma RunNamedCatalog(name: string, store: string -> StoreReply)
    requires name != ""
    ensures name !in Names ==>
      RunNamed(Some(name), store) == Exchange(Reply(404, Message("Unknown query name: " + name)), None)
    ensures forall i :: 0 <= i < |Names| && Names[i] == name ==>
      RunNamed(Some(name), store) == RunCatalogQuery(name, QueryCatalog.Text(i), store)
  {
    GetCatalog(name);
    if name in Names {
      var i :| 0 <= i < |Names| && Names[i] == name;
      assert |QueryCatalog.Text(i)| > 0 by { NonEmptyText(i); }
    }
  }

  lemma RunFoundCases(n: string, found: Option<string>, store: string -> StoreReply)
    ensures var x := RunFound(n, found, store);
      && x.reply.status != 400
      && (x.reply.status == 404 <==> found.None? || found.value == "")
      && (x.sent.None? <==> x.reply.status == 404)
  {
    if found.Some? && |found.value| > 0 {
      var outcome := RunSparql(store, found.value);
      AnswerCases(outcome, NamedRows(n, RowsOf(outcome)), None);
    }
  }

  /** The reply to a run follows the store's answer: 200 with `ok` for a 200 answer whose
      body flattens, 502 with the store's status and text for any other status, and 500
      for a failed connection or an unreadable body. */
  lemma ReplyFollowsAnswer(answer: StoreReply, ok: Body, echo: Option<string>)
    ensures var r := Answer(Decide(answer), ok, echo);
      && (r.status == 200 <==>
            answer.Responded? && answer.status == 200 && ReadRows(answer.body).Ok?)
      && (r.status == 200 ==> r.body == ok && Decide(answer).value == ReadRows(answer.body).value)
      && (r.status == 502 <==> answer.Responded? && answer.status != 200)
      && (r.status == 502 ==> r.body == StoreRejected(answer.status, answer.text, echo))
      && (r.status == 500 <==>
            answer.Unreachable? || (answer.status == 200 && ReadRows(answer.body).Err?))
      && (r.status == 500 ==> r.body.Crash? && r.body.echo == echo)
  {
    DecideCases(answer);
    AnswerCases(Decide(answer), ok, echo);
  }

  /** A catalogue query is posted prefixed and the reply follows the store's answer to it:
      the flattened rows of a 200 answer that flattens, a 502 carrying the store's status
      and text for any other status, and a 500 for a failed connection or an unreadable
      body. */
  lemma CatalogQueryReply(n: string, q: string, store: string -> StoreReply)
    ensures var x := RunCatalogQuery(n, q, store);
            var answer := store(SentQuery(q));
      && x.sent == Some(SentQuery(q))
      && (x.reply.status == 200 <==>
            answer.Responded? && answer.status == 200 && ReadRows(answer.body).Ok?)
      && (x.reply.status == 200 ==> x.reply.body == NamedRows(n, ReadRows(answer.body).value))
      && (x.reply.status == 502 <==> answer.Responded? && answer.status != 200)
      && (x.reply.status == 502 ==>
            x.reply.body == StoreRejected(answer.status, answer.text, None))
      && (x.reply.status == 500 <==>
            answer.Unreachable? || (answer.status == 200 && ReadRows(answer.body).Err?))
  {
    var answer := store(SentQuery(q));
    ReplyFollowsAnswer(answer, NamedRows(n, RowsOf(Decide(answer))), None);
  }

  /** A request that reaches the store runs the catalogue text stored under the name. */
  lemma RunNamedRuns(name: Option<string>, store: string -> StoreReply)
    ensures var x := RunNamed(name, store);
      x.sent.Some? ==>
        && name.Some? && Get(name.value).Some?
        && x == RunCatalogQuery(name.value, Get(name.value).value, store)
  {
    if name.Some? && |name.value| > 0 {
      RunFoundCases(name.value, Get(name.value), store);
    }
  }

  /** The query text a raw request carries, for the replies that echo it. */
  function Echoed(b: Body): Option<string>
  {
    match b
    case RawRows(_, query) => Some(query)
    case StoreRejected(_, _, echo) => echo
    case Crash(_, echo) => echo
    case _ => None
  }

  /** A non-blank query of `/run-raw` is posted prefixed and echoed in every reply, the
      reply following the store's answer as for a named query. */
  lemma RawQueryReply(q: string, store: string -> StoreReply)
    requires |Strip(q)| > 0
    ensures var x := RunRawQuery(q, store);
            var answer := store(SentQuery(q));
      && x.sent == Some(SentQuery(q))
      && Echoed(x.reply.body) == Some(q)
      && (x.reply.status == 200 <==>
            answer.Responded? && answer.status == 200 && ReadRows(answer.body).Ok?)
      && (x.reply.status == 200 ==> x.reply.body.rows == ReadRows(answer.body).value)
      && (x.reply.status == 502 <==> answer.Responded? && answer.status != 200)
      && (x.reply.status == 502 ==>
            x.reply.body == StoreRejected(answer.status, answer.text, Some(q)))
      && (x.reply.status == 500 <==>
            answer.Unreachable? || (answer.status == 200 && ReadRows(answer.body).Err?))
  {
    var answer := store(SentQuery(q));
    assert RunRawQuery(q, store) == Exchange(RawAnswer(q, Decide(answer)), Some(SentQuery(q)));
    RawAnswerCases(q, answer);
  }

  /** The reply to a raw query follows the store's answer and echoes the query. */
  lemma RawAnswerCases(q: string, answer: StoreReply)
    ensures var r := RawAnswer(q, Decide(answer));
      && Echoed(r.body) == Some(q)
      && (r.status == 200 <==>
            answer.Responded? && answer.status == 200 && ReadRows(answer.body).Ok?)
      && (r.status == 200 ==> r.body.rows == ReadRows(answer.body).value)
      && (r.status == 502 <==> answer.Responded? && answer.status != 200)
      && (r.status == 502 ==> r.body == StoreRejected(answer.status, answer.text, Some(q)))
      && (r.status == 500 <==>
            answer.Unreachable? || (answer.status == 200 && ReadRows(answer.body).Err?))
  {
    ReplyFollowsAnswer(answer, RawRows(RowsOf(Decide(answer)), q), Some(q));
  }

  /** What `RawQuery` yields is either empty or a normalised text, which normalisation
      leaves alone. */
  lemma RawQueryNormalized(req: RawRequest)
    requires RawQuery(req).Ok?
    ensures var q := RawQuery(req).value;
            NormalizeQuery(q) == q && Trimmed(q)
  {
    var q := RawQuery(req).value;
    if q != "" {
      var t :| NormalizeQuery(t) == q;
      NormalizeIdempotent(t);
      NormalizeClean(t);
    }
  }

  /** Whenever `/run-raw` reaches the store, the query it echoes is the normalised request
      text, normalising it again inside `run_sparql` changes nothing, and the text posted
      is that query behind the prefix declarations it lacks. */
  lemma RunRawEcho(req: RawRequest, store: string -> StoreReply)
    ensures var x := RunRaw(req, store);
      x.sent.Some? ==>
        && RawQuery(req).Ok?
        && var q := RawQuery(req).value;
        && q != "" && NormalizeQuery(q) == q
        && x.sent.value == EnsurePrefixes(q)
        && Echoed(x.reply.body) == Some(q)
  {
    var x := RunRaw(req, store);
    if RawQuery(req).Ok? {
      var q := RawQuery(req).value;
      RawQueryNormalized(req);
      if |Strip(q)| > 0 {
        RawQueryReply(q, store);
      }
    }
  }

  /** A request whose query normalises to nothing is answered 400 without a request to the
      store; any other readable query is sent. */
  lemma RunRawBlank(req: RawRequest, store: string -> StoreReply)
    requires RawQuery(req).Ok?
    ensures var x := RunRaw(req, store);
      && (x.reply.status == 400 <==> RawQuery(req).value == "")
      && (x.sent.None? <==> RawQuery(req).value == "")
  {
    var q := RawQuery(req).value;
    RawQueryNormalized(req);
    StripTrimmed(q);
    if |Strip(q)| > 0 {
      RawQueryReply(q, store);
    }
  }

  /** Reading the request raises exactly for a JSON body that does not parse (400), a
      truthy JSON value that is not an object, or a truthy `query` that is not a string
      (both 500). */
  lemma RawTextErrors(req: RawRequest)
    ensures RawText(req).Err? <==>
        req.JsonRequest? &&
        (|| req.parsed.None?
         || (Truthy(req.parsed.value) && !req.parsed.value.Object?)
         || (req.parsed.value.Object? &&
             var v := GetOr(req.parsed.value.members, "query", String(""));
             Truthy(v) && !v.String?))
    ensures RawText(req).Err? ==>
      && RawText(req).error.body == FrameworkError
      && (RawText(req).error.status == 400 <==> req.parsed.None?)
      && RawText(req).error.status in {400, 500}
  {
  }

  /** The framework's own error page is answered exactly when reading the request raises,
      and then the store is not contacted. */
  lemma RunRawFrameworkErrors(req: RawRequest, store: string -> StoreReply)
    ensures var x := RunRaw(req, store);
      && (x.reply.body.FrameworkError? <==> RawText(req).Err?)
      && (RawText(req).Err? ==> x.sent.None? && x.reply == RawText(req).error)
  {
    match RawText(req)
    case Err(r) =>
      assert RunRaw(req, store) == Exchange(r, None);
    case Ok(t) =>
      var q := NormalizeQuery(t);
      assert RunRaw(req, store) == RunRawQuery(q, store);
      if |Strip(q)| > 0 {
        RawQueryReply(q, store);
      }
  }

  /** The statuses `/run-raw` answers with. */
  lemma RunRawStatuses(req: RawRequest, store: string -> StoreReply)
    ensures RunRaw(req, store).reply.status in {200, 400, 500, 502}
  {
    if RawQuery(req).Ok? {
      var q := RawQuery(req).value;
      if |Strip(q)| > 0 {
        RawQueryReply(q, store);
      }
    }
  }
}
