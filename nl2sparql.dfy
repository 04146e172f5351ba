/**
 * The natural-language front end: a language model is asked for a SPARQL query, the query
 * is pulled out of the model's answer, and the `/translate-run` route posts it, as an HTML
 * form field and without any normalisation, to the triple store.
 *
 * The model provider is a script `respond`, whose `respond(n)` is the outcome of the n-th
 * call; the waits between attempts are recorded rather than slept.  The triple store is a
 * function from the posted query to its answer.
 */
module Nl2Sparql {
  import opened Wrappers
  import opened Text
  import opened Json
  import opened Fences
  import opened SparqlResults

  // ---------------------------------------------------------------------------------------
  // Extraction of the query from the model's answer

  /** The trimmed body of a block matched in `text`. */
  function BlockBody(text: string, sp: Span): (r: string)
    requires sp.body <= sp.close <= |text|
    ensures Trimmed(r)
  {
    StripInfix(text[sp.body..sp.close]);
    Strip(text[sp.body..sp.close])
  }

  /** `extract_sparql`: the body of the first block opened by a `sparql` tag and whitespace
      (in any case), else the body of the first block of any kind, else the whole text,
      trimmed in each case. */
  function Extract(text: string): (r: string)
    ensures |text| == 0 ==> r == ""
    ensures Trimmed(r)
  {
    if |text| == 0 then ""
    else
      match Search(text, 0, SparqlThenSpace)
      case Some((_, sp)) => BlockBody(text, sp)
      case None => ExtractUntagged(text)
  }

  /** The second and third tiers of `extract_sparql`. */
  function ExtractUntagged(text: string): (r: string)
    ensures Trimmed(r)
  {
    match Search(text, 0, Bare)
    case Some((_, sp)) => BlockBody(text, sp)
    case None => StripInfix(text); Strip(text)
  }

  /** Where no match starts at or after `from`, the search finds nothing. */
  lemma SearchNone(s: string, from: nat, kind: Opener)
    requires forall q: nat :: from <= q ==> MatchAt(s, q, kind).None?
    ensures Search(s, from, kind).None?
  {
  }

  /** First tier: the leftmost block with a `sparql` tag followed by whitespace gives the
      query, whatever other blocks the text holds. */
  lemma ExtractTagged(text: string, p: nat, sp: Span)
    requires MatchAt(text, p, SparqlThenSpace) == Some(sp)
    requires forall q: nat :: q < p ==> MatchAt(text, q, SparqlThenSpace).None?
    ensures Extract(text) == Strip(text[sp.body..sp.close])
  {
    SearchFirst(text, 0, p, SparqlThenSpace, sp);
  }

  /** Second tier: without such a block the leftmost block of any kind gives the query. */
  lemma ExtractBare(text: string, p: nat, sp: Span)
    requires forall q: nat :: MatchAt(text, q, SparqlThenSpace).None?
    requires MatchAt(text, p, Bare) == Some(sp)
    requires forall q: nat :: q < p ==> MatchAt(text, q, Bare).None?
    ensures Extract(text) == Strip(text[sp.body..sp.close])
  {
    SearchFirst(text, 0, p, Bare, sp);
    SearchNone(text, 0, SparqlThenSpace);
  }

  /** A block with the `sparql` tag is also a block of any kind, closed by the same fence. */
  lemma TaggedIsBare(s: string, q: nat)
    requires MatchAt(s, q, SparqlThenSpace).Some?
    ensures MatchAt(s, q, Bare).Some?
    ensures MatchAt(s, q, Bare).value.close == MatchAt(s, q, SparqlThenSpace).value.close
  {
    var sp := MatchAt(s, q, SparqlThenSpace).value;
    var b := BodyStart(s, q + 3, SparqlThenSpace).value;
    assert LetterMatches(s[q + 3 + 0], "sparql"[0]);
    assert SkipSpace(s, q + 3) == q + 3;
    forall j | q + 3 <= j < sp.close
      ensures !FenceAt(s, j)
    {
      if j < b {
        assert s[j] != '`';
      }
    }
    FindFenceFirst(s, q + 3, sp.close);
    MatchFromParts(s, q, Bare, q + 3, sp.close);
  }

  /** Third tier: a text without any block is only trimmed. */
  lemma ExtractPlain(text: string)
    requires forall q: nat :: MatchAt(text, q, Bare).None?
    ensures Extract(text) == Strip(text)
  {
    forall q: nat
      ensures MatchAt(text, q, SparqlThenSpace).None?
    {
      if MatchAt(text, q, SparqlThenSpace).Some? {
        TaggedIsBare(text, q);
      }
    }
  }

  /** In particular a text in which no two fences are apart is only trimmed. */
  lemma ExtractWithoutBlock(text: string)
    requires NoClosedFence(text)
    ensures Extract(text) == Strip(text)
  {
    forall q: nat
      ensures MatchAt(text, q, Bare).None?
    {
      MatchSpansTwoFences(text, q, Bare);
    }
    ExtractPlain(text);
  }

  /** No match of any pattern starts before a text without backquotes that opens the text. */
  lemma NoMatchBefore(pre: string, tagged: bool, body: string, post: string, kind: Opener)
    requires NoBackquote(pre)
    ensures forall q: nat :: q < |pre| ==> MatchAt(Fenced(pre, tagged, body, post), q, kind).None?
  {
    FencedParts(pre, tagged, body, post);
  }

  /** The first tier applied to a block whose body is `body`. */
  lemma TaggedBodyOf(s: string, p: nat, b: nat, body: string)
    requires b + |body| <= |s| && s[b..b + |body|] == body
    requires MatchAt(s, p, SparqlThenSpace) == Some(Span(b, b + |body|))
    requires forall q: nat :: q < p ==> MatchAt(s, q, SparqlThenSpace).None?
    ensures Extract(s) == Strip(body)
  {
    ExtractTagged(s, p, Span(b, b + |body|));
  }

  /** The second tier applied to a block whose body is `body`. */
  lemma BareBodyOf(s: string, p: nat, b: nat, body: string)
    requires forall q: nat :: MatchAt(s, q, SparqlThenSpace).None?
    requires b + |body| <= |s| && s[b..b + |body|] == body
    requires MatchAt(s, p, Bare) == Some(Span(b, b + |body|))
    requires forall q: nat :: q < p ==> MatchAt(s, q, Bare).None?
    ensures Extract(s) == Strip(body)
  {
    ExtractBare(s, p, Span(b, b + |body|));
  }

  /** Where the block of a tagged answer lies and that it is the first tagged one. */
  lemma TaggedBlockFacts(pre: string, body: string, post: string)
    requires NoBackquote(pre) && NoBackquote(body) && (body == [] || !IsSpace(body[0]))
    ensures var s := Fenced(pre, true, body, post);
            var b := |pre| + 10;
            && b + |body| <= |s| && s[b..b + |body|] == body
            && MatchAt(s, |pre|, SparqlThenSpace) == Some(Span(b, b + |body|))
            && forall q: nat :: q < |pre| ==> MatchAt(s, q, SparqlThenSpace).None?
  {
    FencedSlices(pre, true, body, post);
    FencedMatch(pre, true, body, post, SparqlThenSpace);
    NoMatchBefore(pre, true, body, post, SparqlThenSpace);
  }

  /** A model answer holding one block tagged `sparql`, with a line break after the tag,
      yields the block's trimmed body. */
  lemma ExtractTaggedBlock(pre: string, body: string, post: string)
    requires NoBackquote(pre) && NoBackquote(body) && (body == [] || !IsSpace(body[0]))
    ensures Extract(Fenced(pre, true, body, post)) == Strip(body)
  {
    TaggedBlockFacts(pre, body, post);
    TaggedBodyOf(Fenced(pre, true, body, post), |pre|, |pre| + 10, body);
  }

  /** After the closing fence of a block no match starts when the rest holds no fence. */
  lemma NoMatchAfter(pre: string, tagged: bool, body: string, post: string, kind: Opener)
    requires NoFence(post)
    ensures var c := |pre| + |Head(tagged)| + |body|;
            forall q: nat :: c <= q ==> MatchAt(Fenced(pre, tagged, body, post), q, kind).None?
  {
    var s := Fenced(pre, tagged, body, post);
    var c := |pre| + |Head(tagged)| + |body|;
    FencedSlices(pre, tagged, body, post);
    forall q: nat | c <= q
      ensures MatchAt(s, q, kind).None?
    {
      var m := MatchAt(s, q, kind);
      if m.Some? {
        FenceInSuffix(s, c + 3, m.value.close);
      }
    }
  }

  /** Where the block of an untagged answer lies, that it is the first block and that the
      answer holds no tagged block. */
  lemma UntaggedBlockFacts(pre: string, body: string, post: string)
    requires NoBackquote(pre) && NoBackquote(body) && (body == [] || !IsSpace(body[0]))
    requires NoFence(post)
    ensures var s := Fenced(pre, false, body, post);
            var b := |pre| + 4;
            && (forall q: nat :: MatchAt(s, q, SparqlThenSpace).None?)
            && b + |body| <= |s| && s[b..b + |body|] == body
            && MatchAt(s, |pre|, Bare) == Some(Span(b, b + |body|))
            && forall q: nat :: q < |pre| ==> MatchAt(s, q, Bare).None?
  {
    var s := Fenced(pre, false, body, post);
    var c := |pre| + |Head(false)| + |body|;
    FencedSlices(pre, false, body, post);
    FencedFences(pre, false, body, post);
    FencedMatch(pre, false, body, post, SparqlThenSpace);
    FencedMatch(pre, false, body, post, Bare);
    NoMatchBefore(pre, false, body, post, SparqlThenSpace);
    NoMatchBefore(pre, false, body, post, Bare);
    NoMatchAfter(pre, false, body, post, SparqlThenSpace);
    forall q: nat
      ensures MatchAt(s, q, SparqlThenSpace).None?
    {
      if |pre| < q < c {
        assert !FenceAt(s, q);
      }
    }
  }

  /** A model answer holding one untagged block, and no fence after it, yields the block's
      trimmed body. */
  lemma ExtractUntaggedBlock(pre: string, body: string, post: string)
    requires NoBackquote(pre) && NoBackquote(body) && (body == [] || !IsSpace(body[0]))
    requires NoFence(post)
    ensures Extract(Fenced(pre, false, body, post)) == Strip(body)
  {
    UntaggedBlockFacts(pre, body, post);
    BareBodyOf(Fenced(pre, false, body, post), |pre|, |pre| + 4, body);
  }

  // ---------------------------------------------------------------------------------------
  // Asking the model, with retries on rate limiting

  /** An exception raised by the provider client, with the HTTP status of the provider's
      response when it carries one. */
  datatype ProviderFailure = ProviderFailure(status: Option<int>, message: string)

  /** What one call of the provider does. */
  datatype ProviderOutcome =
    | Replied(text: string)
    | Raised(failure: ProviderFailure)

  /** A failure the loop retries when attempts remain. */
  predicate RateLimited(o: ProviderOutcome)
  {
    o.Raised? && o.failure.status == Some(429)
  }

  function Pow2(n: nat): (r: nat)
    ensures r >= 1
  {
    if n == 0 then 1 else 2 * Pow2(n - 1)
  }

  /** The result of `ask_openai_for_sparql`, with the inputs of the provider calls made and
      the waits between them. */
  datatype Attempts = Attempts(outcome: Result<string, ProviderFailure>, inputs: seq<string>, delays: seq<nat>)

  /** The loop from attempt `attempt` on, with the text of the reply that ends it. */
  function AskFrom(question: string, respond: nat -> ProviderOutcome, attempt: nat): Attempts
    requires attempt <= 2
    decreases 2 - attempt
  {
    match respond(attempt)
    case Replied(text) => Attempts(Ok(text), [Strip(question)], [])
    case Raised(f) =>
      if f.status == Some(429) && attempt < 2 then
        var rest := AskFrom(question, respond, attempt + 1);
        Attempts(rest.outcome, [Strip(question)] + rest.inputs, [Pow2(attempt)] + rest.delays)
      else
        Attempts(Err(f), [Strip(question)], [])
  }

  /** The whole loop, with the query extracted from the reply. */
  function Ask(question: string, respond: nat -> ProviderOutcome): Attempts
  {
    var a := AskFrom(question, respond, 0);
    Attempts(ExtractReply(a.outcome), a.inputs, a.delays)
  }

  function ExtractReply(o: Result<string, ProviderFailure>): Result<string, ProviderFailure>
  {
    match o
    case Ok(text) => Ok(Extract(text))
    case Err(f) => Err(f)
  }

  /** `ask_openai_for_sparql`: up to three attempts, waiting `2 ** attempt` after a
      rate-limited one that is not the last. */
  method AskForSparql(question: string, respond: nat -> ProviderOutcome)
    returns (outcome: Result<string, ProviderFailure>, inputs: seq<string>, delays: seq<nat>)
    ensures Attempts(outcome, inputs, delays) == Ask(question, respond)
    ensures |inputs| == |delays| + 1 <= 3
  {
    inputs := [];
    delays := [];
    var attempt := 0;
    ghost var all := AskFrom(question, respond, 0);
    while attempt < 3
      invariant attempt <= 2 && |inputs| == |delays| == attempt
      invariant var rest := AskFrom(question, respond, attempt);
        all == Attempts(rest.outcome, inputs + rest.inputs, delays + rest.delays)
      decreases 3 - attempt
    {
      match respond(attempt)
      case Replied(text) =>
        inputs := inputs + [Strip(question)];
        outcome := Ok(Extract(text));
        return;
      case Raised(f) =>
        if f.status == Some(429) && attempt < 2 {
          var rest := AskFrom(question, respond, attempt + 1);
          Regroup(inputs, Strip(question), rest.inputs);
          Regroup(delays, Pow2(attempt), rest.delays);
          inputs := inputs + [Strip(question)];
          delays := delays + [Pow2(attempt)];
          attempt := attempt + 1;
        } else {
          inputs := inputs + [Strip(question)];
          outcome := Err(f);
          return;
        }
    }
  }

  lemma Regroup<T>(a: seq<T>, x: T, b: seq<T>)
    ensures a + ([x] + b) == (a + [x]) + b
  {
  }

  /** The attempt at which the loop stops when it starts at `from`: the first whose outcome
      is not a rate limit, or the last one. */
  function LastAttemptFrom(respond: nat -> ProviderOutcome, from: nat): (k: nat)
    requires from <= 2
    ensures from <= k <= 2
    ensures forall i :: from <= i < k ==> RateLimited(respond(i))
    ensures k < 2 ==> !RateLimited(respond(k))
    decreases 2 - from
  {
    if from == 2 || !RateLimited(respond(from)) then from else LastAttemptFrom(respond, from + 1)
  }

  function LastAttempt(respond: nat -> ProviderOutcome): nat
  {
    LastAttemptFrom(respond, 0)
  }

  /** The result of the attempt that stops the loop, before extraction. */
  function Settle(o: ProviderOutcome): Result<string, ProviderFailure>
  {
    match o
    case Replied(text) => Ok(text)
    case Raised(f) => Err(f)
  }

  /** The `count` waits `2 ** attempt` after the attempts from `from` on. */
  function Backoff(from: nat, count: nat): (r: seq<nat>)
    ensures |r| == count
    decreases count
  {
    if count == 0 then [] else [Pow2(from)] + Backoff(from + 1, count - 1)
  }

  /** The waits after the first two attempts are 1 and 2. */
  lemma FirstWaits()
    ensures Backoff(0, 2) == [1, 2]
  {
    assert Pow2(1) == 2;
  }

  lemma {:induction false} AskFromShape(question: string, respond: nat -> ProviderOutcome, attempt: nat)
    requires attempt <= 2
    ensures var a := AskFrom(question, respond, attempt);
            var k := LastAttemptFrom(respond, attempt);
      && |a.inputs| == k - attempt + 1
      && (forall i :: 0 <= i < |a.inputs| ==> a.inputs[i] == Strip(question))
      && a.delays == Backoff(attempt, k - attempt)
      && a.outcome == Settle(respond(k))
    decreases 2 - attempt
  {
    if attempt < 2 && RateLimited(respond(attempt)) {
      AskFromShape(question, respond, attempt + 1);
      var rest := AskFrom(question, respond, attempt + 1);
      var a := AskFrom(question, respond, attempt);
      assert a.inputs == [Strip(question)] + rest.inputs;
    }
  }

  /** The loop, described by where it stops: the attempts up to the first that is not rate
      limited (or the third) are made, each on the trimmed question, with a wait of
      `2 ** attempt` after each rate-limited one, and the last one decides the result. */
  lemma AskShape(question: string, respond: nat -> ProviderOutcome)
    ensures var a := Ask(question, respond);
            var k := LastAttempt(respond);
      && |a.inputs| == k + 1 <= 3
      && (forall i :: 0 <= i < |a.inputs| ==> a.inputs[i] == Strip(question))
      && a.delays == Backoff(0, k)
      && (forall i :: 0 <= i < k ==> RateLimited(respond(i)))
      && a.outcome == ExtractReply(Settle(respond(k)))
  {
    AskFromShape(question, respond, 0);
  }

  /** Three rate-limited attempts raise the last rate-limit error after waits of 1 and 2. */
  lemma ThreeRateLimits(question: string, respond: nat -> ProviderOutcome)
    requires RateLimited(respond(0)) && RateLimited(respond(1)) && RateLimited(respond(2))
    ensures var a := Ask(question, respond);
      && a.outcome == Err(respond(2).failure)
      && |a.inputs| == 3
      && a.delays == [1, 2]
  {
    assert LastAttempt(respond) == 2;
    AskShape(question, respond);
    FirstWaits();
  }

  /** A failure other than a rate limit is raised at the attempt where it happens, with no
      further call and no wait after it. */
  lemma OtherFailureStops(question: string, respond: nat -> ProviderOutcome, i: nat)
    requires i <= 2 && forall j :: 0 <= j < i ==> RateLimited(respond(j))
    requires respond(i).Raised? && !RateLimited(respond(i))
    ensures var a := Ask(question, respond);
      && a.outcome == Err(respond(i).failure)
      && |a.inputs| == i + 1
      && |a.delays| == i
  {
    AskShape(question, respond);
    var k := LastAttempt(respond);
    assert !(k < i) && !(i < k);
  }

  /** A reply ends the loop with the query extracted from the reply's text. */
  lemma ReplyStops(question: string, respond: nat -> ProviderOutcome, i: nat)
    requires i <= 2 && forall j :: 0 <= j < i ==> RateLimited(respond(j))
    requires respond(i).Replied?
    ensures var a := Ask(question, respond);
      && a.outcome == Ok(Extract(respond(i).text))
      && |a.inputs| == i + 1
  {
    AskShape(question, respond);
    var k := LastAttempt(respond);
    assert !(k < i) && !(i < k);
  }

  // ---------------------------------------------------------------------------------------
  // Running the extracted query on the triple store

  /** What `_safe_body` returns for a failed response: its JSON value if it parses, else its
      text. */
  datatype Details = JsonDetails(value: Json) | TextDetails(text: string)

  function SafeBody(text: string, body: Option<Json>): Details
  {
    match body
    case Some(j) => JsonDetails(j)
    case None => TextDetails(text)
  }

  /** Why running the query raised. */
  datatype RunFailure =
    | HttpFailed(status: int, details: Details)  // `raise_for_status` on a 4xx or 5xx answer
    | Crashed(cause: Cause)                       // any other exception

  /** `run_sparql` of this module for the store's answer to the posted query: answers with a
      client or server error status raise, any other status goes on to the flattening. */
  function RunForm(answer: StoreReply): Result<seq<Row>, RunFailure>
  {
    match answer
    case Unreachable(reason) => Err(Crashed(ConnectionFailed(reason)))
    case Responded(status, text, body) =>
      if 400 <= status < 600 then Err(HttpFailed(status, SafeBody(text, body)))
      else
        match ReadRows(body)
        case Ok(rows) => Ok(rows)
        case Err(c) => Err(Crashed(c))
  }

  /** The outcome of running a query follows the store's status class: rows for an answer
      outside 400-599 that flattens, an HTTP failure carrying the status for one inside. */
  lemma RunFormCases(answer: StoreReply)
    ensures var r := RunForm(answer);
      && (r.Ok? <==>
            answer.Responded? && !(400 <= answer.status < 600) && ReadRows(answer.body).Ok?)
      && (r.Ok? ==> r.value == ReadRows(answer.body).value)
      && (r.Err? && r.error.HttpFailed? <==> answer.Responded? && 400 <= answer.status < 600)
      && (r.Err? && r.error.HttpFailed? ==>
            r.error.status == answer.status &&
            r.error.details == SafeBody(answer.text, answer.body))
  {
  }

  // ---------------------------------------------------------------------------------------
  // The two routes

  /** The JSON bodies of the replies. */
  datatype Body =
    | Query(query: string)                       // `/translate` success
    | QueryRows(query: string, rows: seq<Row>)   // `/translate-run` success
    | Message(error: string)                     // the 400 for a missing question
    | HttpError(status: int, details: Details)   // "HTTP error <status>" with the details
    | ProviderError(failure: ProviderFailure)    // `str(e)` of a provider exception
    | Crash(cause: Cause)                        // `str(e)` of another exception
    | FrameworkError                             // Flask's own error page

  datatype Response = Response(status: int, body: Body)

  /** A reply, the provider calls and waits made for it, and the query posted to the store,
      if any. */
  datatype Translation = Translation(reply: Response, inputs: seq<string>, delays: seq<nat>, ran: Option<string>)

  /** The trimmed question of a request (`None` for a body that is not JSON), or the
      framework's 500 when reading it raises: `.get` on a truthy JSON value that is not an
      object, or `.strip` on a truthy `question` that is not a string. */
  function Question(parsed: Option<Json>): Result<string, Response>
  {
    var d := if parsed.Some? && Truthy(parsed.value) then parsed.value else Object([]);
    if !d.Object? then Err(Response(500, FrameworkError))
    else
      var v := GetOr(d.members, "question", Null);
      if !Truthy(v) then Ok("")
      else if v.String? then Ok(Strip(v.s))
      else Err(Response(500, FrameworkError))
  }

  const MissingQuestion := "Provide JSON with 'question'."

  /** `POST /translate`.  The provider client raises its own exceptions, never a
      `requests.HTTPError`, so every provider failure is answered 500. */
  function TranslateOnly(parsed: Option<Json>, respond: nat -> ProviderOutcome): Translation
  {
    match Question(parsed)
    case Err(reply) => Translation(reply, [], [], None)
    case Ok(q) =>
      if |q| == 0 then Translation(Response(400, Message(MissingQuestion)), [], [], None)
      else
        var a := Ask(q, respond);
        match a.outcome
        case Ok(sparql) => Translation(Response(200, Query(sparql)), a.inputs, a.delays, None)
        case Err(f) => Translation(Response(500, ProviderError(f)), a.inputs, a.delays, None)
  }

  /** `POST /translate-run`: the extracted query is posted as it is. */
  function TranslateAndRun(parsed: Option<Json>, respond: nat -> ProviderOutcome,
                           store: string -> StoreReply): Translation
  {
    match Question(parsed)
    case Err(reply) => Translation(reply, [], [], None)
    case Ok(q) =>
      if |q| == 0 then Translation(Response(400, Message(MissingQuestion)), [], [], None)
      else
        var a := Ask(q, respond);
        match a.outcome
        case Err(f) => Translation(Response(500, ProviderError(f)), a.inputs, a.delays, None)
        case Ok(sparql) => Translation(RunReply(sparql, RunForm(store(sparql))), a.inputs, a.delays, Some(sparql))
  }

  /** The reply of `/translate-run` once the query has been run. */
  function RunReply(sparql: string, run: Result<seq<Row>, RunFailure>): Response
  {
    match run
    case Ok(rows) => Response(200, QueryRows(sparql, rows))
    case Err(HttpFailed(status, details)) => Response(502, HttpError(status, details))
    case Err(Crashed(cause)) => Response(500, Crash(cause))
  }

  // ---------------------------------------------------------------------------------------
  // Properties of the routes

  /** A question that is missing, falsy or blank is answered 400 by both routes, without a
      call to the provider or the store. */
  lemma TranslateBlank(parsed: Option<Json>, respond: nat -> ProviderOutcome, store: string -> StoreReply)
    ensures var x := TranslateOnly(parsed, respond);
      && (x.reply.status == 400 <==> Question(parsed) == Ok(""))
      && (x.reply.status == 400 ==> x.inputs == [] && x.ran.None?)
    ensures var y := TranslateAndRun(parsed, respond, store);
      && (y.reply.status == 400 <==> Question(parsed) == Ok(""))
      && (y.reply.status == 400 ==> y.inputs == [] && y.ran.None?)
  {
    var x := TranslateOnly(parsed, respond);
    var y := TranslateAndRun(parsed, respond, store);
    if Question(parsed).Ok? && Question(parsed).value != "" {
      var a := Ask(Question(parsed).value, respond);
      assert x.reply.status != 400;
      if a.outcome.Ok? {
        RunFormCases(store(a.outcome.value));
      }
    }
  }

  /** Reading the question raises exactly for a truthy JSON value that is not an object or a
      truthy `question` that is not a string; a body that is not JSON reads as no question. */
  lemma QuestionErrors(parsed: Option<Json>)
    ensures Question(parsed).Err? <==>
      parsed.Some? && Truthy(parsed.value) &&
      (|| !parsed.value.Object?
       || (var v := GetOr(parsed.value.members, "question", Null); Truthy(v) && !v.String?))
    ensures Question(parsed).Err? ==> Question(parsed).error == Response(500, FrameworkError)
    ensures Question(parsed).Ok? ==> Trimmed(Question(parsed).value)
    ensures parsed.None? ==> Question(parsed) == Ok("")
  {
    if Question(parsed).Ok? && Question(parsed).value != "" {
      StripInfix(GetOr(parsed.value.members, "question", Null).s);
    }
  }

  /** Every provider call receives the trimmed question, which trimming again inside
      `ask_openai_for_sparql` leaves alone; `/translate` answers 200 with the extracted query
      exactly when the provider's attempts end in a reply. */
  lemma TranslateOnlyAsks(parsed: Option<Json>, respond: nat -> ProviderOutcome)
    requires Question(parsed).Ok? && Question(parsed).value != ""
    ensures var q := Question(parsed).value;
            var x := TranslateOnly(parsed, respond);
            var k := LastAttempt(respond);
      && 1 <= |x.inputs| <= 3
      && (forall i :: 0 <= i < |x.inputs| ==> x.inputs[i] == q)
      && (x.reply.status == 200 <==> respond(k).Replied?)
      && (x.reply.status == 200 ==> x.reply.body == Query(Extract(respond(k).text)))
      && (x.reply.status == 500 <==> respond(k).Raised?)
      && x.ran.None?
  {
    var q := Question(parsed).value;
    QuestionErrors(parsed);
    StripTrimmed(q);
    AskShape(q, respond);
  }

  /** `/translate-run` posts exactly the extracted query, without normalising it or adding
      prefixes, and its reply follows the store's answer: 200 with the rows, 502 with the
      status and the safe body for a 4xx or 5xx answer, 500 otherwise. */
  lemma TranslateRunPosts(parsed: Option<Json>, respond: nat -> ProviderOutcome, store: string -> StoreReply)
    requires Question(parsed).Ok? && Question(parsed).value != ""
    ensures var q := Question(parsed).value;
            var y := TranslateAndRun(parsed, respond, store);
            var k := LastAttempt(respond);
      && (forall i :: 0 <= i < |y.inputs| ==> y.inputs[i] == q)
      && (y.ran.Some? <==> respond(k).Replied?)
      && (y.ran.Some? ==> y.ran.value == Extract(respond(k).text))
      && (y.ran.None? ==> y.reply == Response(500, ProviderError(respond(k).failure)))
      && (y.ran.Some? ==>
            var answer := store(y.ran.value);
            && (y.reply.status == 200 <==>
                  answer.Responded? && !(400 <= answer.status < 600) && ReadRows(answer.body).Ok?)
            && (y.reply.status == 200 ==> y.reply.body == QueryRows(y.ran.value, ReadRows(answer.body).value))
            && (y.reply.status == 502 <==> answer.Responded? && 400 <= answer.status < 600)
            && (y.reply.status == 502 ==>
                  y.reply.body == HttpError(answer.status, SafeBody(answer.text, answer.body))))
  {
    var q := Question(parsed).value;
    QuestionErrors(parsed);
    StripTrimmed(q);
    AskShape(q, respond);
    var a := Ask(q, respond);
    if a.outcome.Ok? {
      RunFormCases(store(a.outcome.value));
    }
  }
}
