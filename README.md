# Knowledge-graph backend: a Dafny model

This project models the request handling of the Flask backend of a small data-quality
knowledge-graph application. It proves properties of that model.

The backend does three jobs:

* **Catalogue and raw queries** (`flask-server/queries_api.py`). It lists six named SPARQL
  queries and runs one of them by name. It also runs a raw query sent by the client. A raw
  query is first cleaned up:
  * fenced code blocks are replaced by their bodies;
  * typographic quotes are straightened;
  * surrounding whitespace is stripped.

  Before a query is posted to the triple store (GraphDB), the `ex:` and `xsd:` declarations it
  uses but lacks are added. The store's JSON results are flattened into one row per
  solution. A non-200 answer becomes a 502 reply and any other exception a 500 reply.
* **Natural-language translation** (`flask-server/nl2sparql_openai.py`). A question is sent to
  a language-model provider. A rate-limited call is attempted at most three times (at most two
  retries), waiting 1 s and then 2 s. The SPARQL query is extracted from the reply in three tiers:
  * the body of the first block tagged `sparql`;
  * otherwise the body of the first fenced block;
  * otherwise the whole text.

  `/translate` returns the query. `/translate-run` also runs it on the store, where a
  4xx/5xx answer becomes a 502 reply.
* **Upload pipeline** (`flask-server/server.py`, `flask-server/json_transformer.py`). An
  uploaded `.json` file is checked and decoded. It is then canonicalised into a
  `{"rules": ...}` payload, which is written to `data.json`. Next the YARRRML rules are
  compiled to RML, but only when `rules.rml.ttl` does not exist yet. Finally the RML mapper
  produces `output.ttl`. Each converter runs in a container.

The modules follow those files:

| module | file | contents |
|---|---|---|
| `Wrappers`, `Text`, `Json` | `wrappers.dfy`, `text.dfy`, `json.dfy` | `Option`/`Result`; Python's `str.strip`, `\s`, case-insensitive letters, `join`, `lower().endswith`; parsed JSON values with truthiness and `dict.get` |
| `Fences` | `fences.dfy` | the regular expressions for fenced blocks: one leftmost lazy match, `re.search`, `re.sub` |
| `QueryCatalog`, `Sorting` | `query_catalog.dfy`, `sorting.dfy` | the six catalogue entries, as an immutable `map` from name to text; `sorted` on strings |
| `SparqlResults` | `sparql_results.dfy` | flattening a SPARQL JSON results document, including the exceptions Python raises on other shapes |
| `QueriesApi` | `queries_api.dfy` | `_normalize_query`, `_ensure_prefixes`, `run_sparql`, and the three routes |
| `Nl2Sparql` | `nl2sparql.dfy` | `extract_sparql`, the retry loop, `run_sparql`, `_safe_body`, and the two routes |
| `Machine` | `machine.dfy` | the data directory and the container runtime, as a `Host` object whose fields the pipeline updates |
| `JsonTransform` | `json_transformer.dfy` | the canonicalisation, and the `JsonTransformer` class |
| `Server` | `server.dfy` | `run`, the two conversion steps, and `process_upload`, both as an imperative method on the `Host` and as a function it is proved equal to |

Outside parties are parameters of the model:

* The triple store is a function `store: string -> StoreReply` from the posted text to its
  answer.
* The provider is `respond: nat -> ProviderOutcome` from the attempt number to its reply or
  exception.
* A converter is `converter(n, cmd)`: what the `n`-th launch of the command line `cmd` does.
  That covers its exit code, its two output streams and the files it leaves behind.

A Flask request body appears as the value the framework parsed from it.

## Model

| member | source | states |
|---|---|---|
| `QueryCatalog.CatalogShape` | flask-server/queries_api.py:8-106 | the catalogue has six entries under six distinct names |
| `QueryCatalog.GetCatalog` | flask-server/queries_api.py:8-106 | `QUERIES.get` finds exactly the six names, each with the text written under it |
| `QueryCatalog.NonEmptyText` | flask-server/queries_api.py:8-106 | no catalogue text is empty, so a known name is never answered 404 |
| `QueryCatalog.ListQueriesOrdered` | flask-server/queries_api.py:146-148 | the listing is strictly ascending and holds exactly the catalogue's names |
| `Sorting.Sort` | flask-server/queries_api.py:148 | `sorted` yields an ascending list with the same elements |
| `Sorting.SortKeepsElements` | flask-server/queries_api.py:148 | sorting keeps the length and which names occur |
| `Sorting.SortedDistinctAscending` | flask-server/queries_api.py:148 | a sorted list of distinct names is strictly ascending |
| `QueriesApi.ListReply` | flask-server/queries_api.py:146-148 | `/list` answers 200 with every catalogue name once, in ascending order |
| `Text.StripInfix` | flask-server/queries_api.py:117 | `strip` removes only whitespace, from both ends, and leaves a trimmed infix |
| `Text.StripIdempotent` | flask-server/queries_api.py:117 | stripping twice is stripping once |
| `QueriesApi.ReplaceQuotes` | flask-server/queries_api.py:116 | the three replacements keep the length, leave no typographic quote, and change only typographic quotes, each to its straight quote |
| `QueriesApi.ReplaceQuotesNoCurly` | flask-server/queries_api.py:116 | text without typographic quotes is left alone |
| `Fences.Search` | flask-server/queries_api.py:115 | `re.search` gives the leftmost match at or after the start position, or none when no match starts there or later |
| `Fences.StripFencesLeavesNoBlock` | flask-server/queries_api.py:115 | after the substitution, no fenced block can be matched |
| `Fences.StripFencesIdempotent` | flask-server/queries_api.py:115 | the fence substitution is idempotent |
| `Fences.NoClosedFenceUnchanged` | flask-server/queries_api.py:115 | text in which no two fences are apart is left unchanged |
| `Fences.StripFencedBlock` | flask-server/queries_api.py:115 | a single block, tagged `sparql` or not, is replaced by its body and the text around it is kept, when the text before it holds no backquote and the text after it closes no further block |
| `QueriesApi.NormalizeClean` | flask-server/queries_api.py:113-117 | a normalised query is trimmed, has no typographic quotes, and holds no closed fenced block |
| `QueriesApi.StripKeepsClean` | flask-server/queries_api.py:117 | stripping keeps a text free of typographic quotes and of closed blocks, and leaves it trimmed |
| `QueriesApi.NormalizeIdempotent` | flask-server/queries_api.py:113-117 | normalising twice is normalising once |
| `QueriesApi.NormalizeWithoutBlock` | flask-server/queries_api.py:113-117 | without a block, only the quotes are straightened and the text stripped |
| `QueriesApi.NormalizeFencedBlock` | flask-server/queries_api.py:113-117 | a query pasted inside one fenced block comes out as the block's body with the surrounding text, fences removed |
| `QueriesApi.WithHeaderCases` | flask-server/queries_api.py:124-128 | the header holds the missing lines, `ex` before `xsd`, each ended by a line break, in front of the query |
| `QueriesApi.EnsurePrefixesHeader` | flask-server/queries_api.py:119-129 | the result is the `ex` line exactly when `ex:` is used but undeclared, then the `xsd` line exactly when `xsd:` is used but undeclared, each ended by a line break, then the query byte for byte |
| `QueriesApi.BothLinesDeclare` | flask-server/queries_api.py:119-128 | with both lines added, both `ex` and `xsd` are declared |
| `QueriesApi.ExLineDeclares` | flask-server/queries_api.py:119-128 | with only the `ex` line added, `ex` is declared and `xsd` stays declared wherever the query used and declared it |
| `QueriesApi.XsdLineDeclares` | flask-server/queries_api.py:119-128 | with only the `xsd` line added, `xsd` is declared and `ex` stays declared wherever the query used and declared it |
| `QueriesApi.EnsurePrefixesDeclares` | flask-server/queries_api.py:119-129 | afterwards every default prefix the query uses is declared, and the query is a suffix of the result |
| `QueriesApi.EnsurePrefixesIdentity` | flask-server/queries_api.py:119-129 | the query is returned unchanged exactly when every default prefix it uses is declared |
| `QueriesApi.EnsurePrefixesIdempotent` | flask-server/queries_api.py:119-129 | adding the missing declarations a second time adds nothing |
| `SparqlResults.FlattenTerms` | flask-server/queries_api.py:142 | a binding flattens exactly when all its terms are objects; each variable keeps its position and maps to its term's `value`; otherwise the offending variable is named |
| `SparqlResults.FlattenFrom` | flask-server/queries_api.py:141-142 | the bindings flatten exactly when each is an object of term objects, and then into one row per binding |
| `SparqlResults.FlattenStandard` | flask-server/queries_api.py:141-142 | a standard results document yields one row per solution, in order |
| `SparqlResults.FlattenArrayExact` | flask-server/queries_api.py:141-142 | rows from an array of bindings correspond one to one with well-shaped bindings |
| `SparqlResults.MissingPartsGiveNoRows` | flask-server/queries_api.py:141 | a missing `results` or `bindings` gives no rows rather than an error |
| `QueriesApi.DecideCases` | flask-server/queries_api.py:131-142 | rows come back exactly from a 200 answer whose body flattens; any other status raises the HTTP error with that status and text |
| `QueriesApi.AnswerCases` | flask-server/queries_api.py:156-163 | 200 with the rows, 502 with the store's status and text, 500 with the cause, in each case as the run ended |
| `QueriesApi.ReplyFollowsAnswer` | flask-server/queries_api.py:131-163 | the handler's status follows the store's answer: 200 exactly for a 200 answer whose body flattens, 502 with the store's status and text exactly for another status, 500 for a failed connection or an unreadable body |
| `QueriesApi.RunNamedValidation` | flask-server/queries_api.py:150-155 | a missing or empty name is 400, and a name for which `QUERIES.get` gives nothing or an empty text is 404, neither posting anything; otherwise the query is posted |
| `QueriesApi.RunFoundCases` | flask-server/queries_api.py:154-158 | after the lookup: 404 exactly for a missing or empty text, and then nothing is posted |
| `QueriesApi.RunNamedCatalog` | flask-server/queries_api.py:150-158 | a name outside the catalogue gets the 404 reply naming it, with nothing posted; a catalogue name is run on its own text |
| `QueriesApi.CatalogQueryReply` | flask-server/queries_api.py:156-163 | a catalogue query is posted normalised and prefixed; 200, 502 and 500 follow the store's answer |
| `QueriesApi.RunNamedRuns` | flask-server/queries_api.py:150-158 | a request that reaches the store runs the catalogue text stored under the name |
| `QueriesApi.RawTextErrors` | flask-server/queries_api.py:167-170 | reading the body raises exactly for unparsable JSON (400), a truthy non-object, or a truthy non-string `query` (500) |
| `QueriesApi.RawQueryNormalized` | flask-server/queries_api.py:167-171 | the query read from the request is normalised and trimmed |
| `QueriesApi.RunRawBlank` | flask-server/queries_api.py:171-172 | a query that normalises to nothing is answered 400 and nothing is posted, and only such a query |
| `QueriesApi.RawQueryReply` | flask-server/queries_api.py:173-180 | a non-blank query is posted prefixed and echoed in the 200, 502 and 500 replies, which follow the store's answer |
| `QueriesApi.RawAnswerCases` | flask-server/queries_api.py:173-180 | every reply of a run raw query echoes it, and its status follows the store's answer |
| `QueriesApi.RunRawEcho` | flask-server/queries_api.py:165-180 | whenever the store is reached, the echoed query is the request's normalised, non-empty query, and the posted text is that query with prefixes added |
| `QueriesApi.RunRawFrameworkErrors` | flask-server/queries_api.py:167-170 | the framework's error reply comes exactly when reading the body raises, and then nothing is posted |
| `QueriesApi.RunRawStatuses` | flask-server/queries_api.py:165-180 | `/run-raw` answers with 200, 400, 500 or 502 |
| `Nl2Sparql.BlockBody` | flask-server/nl2sparql_openai.py:42 | the body of a matched block, trimmed |
| `Nl2Sparql.Extract` | flask-server/nl2sparql_openai.py:36-46 | empty text gives the empty query, and the result is always trimmed |
| `Nl2Sparql.ExtractTagged` | flask-server/nl2sparql_openai.py:40-42 | the leftmost block opened by `sparql` and whitespace gives the query, whatever other blocks there are |
| `Nl2Sparql.ExtractBare` | flask-server/nl2sparql_openai.py:43-45 | without a tagged block, the leftmost block of any kind gives the query |
| `Nl2Sparql.TaggedIsBare` | flask-server/nl2sparql_openai.py:40-45 | a tagged block is also a block of the second pattern, closed by the same fence |
| `Nl2Sparql.ExtractPlain` | flask-server/nl2sparql_openai.py:46 | a text without any block is only stripped |
| `Nl2Sparql.ExtractWithoutBlock` | flask-server/nl2sparql_openai.py:36-46 | a text in which no two fences are apart is only stripped |
| `Nl2Sparql.ExtractTaggedBlock` | flask-server/nl2sparql_openai.py:40-42 | an answer with one `sparql`-tagged block yields the block's trimmed body |
| `Nl2Sparql.ExtractUntaggedBlock` | flask-server/nl2sparql_openai.py:43-45 | an answer with one untagged block and no fence after it yields the block's trimmed body |
| `Nl2Sparql.AskForSparql` | flask-server/nl2sparql_openai.py:60-80 | the loop makes at most three calls with one wait fewer than calls, and its outcome, inputs and waits are those of the recursive description |
| `Nl2Sparql.AskShape` | flask-server/nl2sparql_openai.py:63-80 | the calls go up to the first attempt that is not rate limited, or the third; each receives the stripped question; the waits are `2 ** attempt` after each retried attempt; the last attempt decides the result |
| `Nl2Sparql.ThreeRateLimits` | flask-server/nl2sparql_openai.py:76-80 | three rate limits raise the third one, after waits of 1 s and 2 s |
| `Nl2Sparql.OtherFailureStops` | flask-server/nl2sparql_openai.py:76-80 | a failure other than a rate limit is raised at once, with no further call and no wait |
| `Nl2Sparql.ReplyStops` | flask-server/nl2sparql_openai.py:72-73 | a reply ends the loop with the query extracted from it |
| `Nl2Sparql.FirstWaits` | flask-server/nl2sparql_openai.py:78 | the two waits are 1 and 2 |
| `Nl2Sparql.RunFormCases` | flask-server/nl2sparql_openai.py:48-58 | rows exactly for an answer outside 400-599 that flattens; an HTTP failure with the status and `_safe_body` exactly for a 4xx or 5xx answer |
| `Nl2Sparql.QuestionErrors` | flask-server/nl2sparql_openai.py:84-85 | reading the question raises exactly for a truthy non-object or a truthy non-string `question`; a non-JSON body reads as no question; the question is trimmed |
| `Nl2Sparql.TranslateBlank` | flask-server/nl2sparql_openai.py:84-87 | both routes answer 400 exactly for a missing or blank question, and then call neither the provider nor the store |
| `Nl2Sparql.TranslateOnlyAsks` | flask-server/nl2sparql_openai.py:82-95 | every call receives the trimmed question; 200 with the extracted query exactly when the attempts end in a reply, 500 otherwise |
| `Nl2Sparql.TranslateRunPosts` | flask-server/nl2sparql_openai.py:97-111 | the extracted query is posted as it is; 200 with the rows, 502 with status and safe body for a 4xx or 5xx answer, a provider failure 500 |
| `JsonTransform.CanonicalRules` | flask-server/json_transformer.py:9-32 | accepted exactly for an array or an object; the payload always has `rules`; an array is wrapped, an object with `rules` kept, any other object replaced by its first value (empty array if none) |
| `JsonTransform.CanonicalIdempotent` | flask-server/json_transformer.py:15-28 | a written payload is canonical: canonicalising it again changes nothing |
| `JsonTransform.JsonTransformer.constructor` | flask-server/json_transformer.py:5-7 | remembers the path and creates the data directory, changing nothing else |
| `JsonTransform.JsonTransformer.WriteDataJson` | flask-server/json_transformer.py:9-34 | a refused document raises its error and leaves the machine unchanged; otherwise only the file is replaced, with the payload |
| `Machine.Host.constructor` | flask-server/server.py:35-37 | the data directory exists at start-up and the files already in it are kept |
| `Machine.Host.Launch` | flask-server/server.py:49 | launching records the command and adds the files the converter left |
| `Server.CommandResult` | flask-server/server.py:48-55 | a command succeeds exactly when it exits 0, and then yields its standard output |
| `Server.CommandResultIgnores` | flask-server/server.py:48-55 | success ignores the error stream; a failure ignores which non-zero code it was; the message starts with the command line and ends with the error stream |
| `Server.Run` | flask-server/server.py:48-55 | the host method launches once and returns the command's verdict |
| `Server.Compile` | flask-server/server.py:57-69 | the host method does what the compile step's specification says |
| `Server.CompileLaunches` | flask-server/server.py:57-69 | the parser is launched exactly when `rules.yml` exists and `rules.rml.ttl` does not; otherwise nothing changes; a missing `rules.yml` is the only error without a launch |
| `Server.RunMapper` | flask-server/server.py:71-78 | the host method does what the mapper step's specification says |
| `Server.MapperLaunches` | flask-server/server.py:71-78 | the mapper is launched every time and succeeds exactly when it exits 0 |
| `Server.ProcessUpload` | flask-server/server.py:88-123 | the step-by-step handler leaves the machine and replies exactly as the pipeline's specification does |
| `Server.UploadValidation` | flask-server/server.py:91-97 | 400 exactly when the form fails a check, with the reason of the first failed check, and then nothing changes |
| `Server.UploadRefused` | flask-server/server.py:100-101 | undecodable bytes or a refused document give 500, and nothing is written or launched |
| `Server.UploadMissingRules` | flask-server/server.py:104 | without `rules.yml` the reply is 500 naming the missing file, the payload was written, and nothing is launched |
| `Server.MapCases` | flask-server/server.py:109-121 | the mapper always runs; 200 exactly when it exits 0 and `output.ttl` exists afterwards; otherwise 500 with the reason |
| `Server.ConvertCases` | flask-server/server.py:104-121 | the mapper runs only after a compile step that succeeded and left `rules.rml.ttl`; a success leaves both generated files |
| `Server.UploadOrder` | flask-server/server.py:99-113 | one upload launches nothing, the parser, the mapper, or the parser then the mapper; launches happen only after the payload was written; the parser runs only without `rules.rml.ttl`; the mapper only once `rules.rml.ttl` exists |
| `Server.UploadStatuses` | flask-server/server.py:88-123 | replies are 200 (processed), 400 (form checks) or 500 (an exception or a missing generated file), and nothing else |
| `Server.UploadSuccess` | flask-server/server.py:113-121 | a processed upload passed the checks, was canonicalised, found `rules.yml`, ended with a mapper run, and leaves the rules and both generated files |
| `Server.StaleOutputAccepted` | flask-server/server.py:109-113 | with `output.ttl` left by an earlier run, a mapper that exits 0 gives 200 whatever it produced |
| `Server.SecondUploadSkipsCompile` | flask-server/server.py:57-62 | after a processed upload, a later one never launches the parser, launches the mapper once if accepted, and is 200 exactly when that run exits 0 |

## Left out

- HTTP transport, Flask routing, CORS, the 10 MB body limit and `jsonify`'s serialisation are not modelled. Each reply is a status and a datatype body.
- `/health`, `/` and `/files/<path>` (`send_from_directory`) are not modelled. They hold no logic of the pipeline.
- `flask-server/graphdb_api.py` and the clients are not part of this model.
- JSON parsing and `json.dumps` formatting are not modelled. A document appears as its parsed value, and a decoder's message as an opaque `detail` string.
- Python dictionaries' key uniqueness is not enforced on the `Json` object values; lookups take the first member with the key.
- The text of an exception's `str(e)` is kept as the cause datatype rather than its rendered message. The one exception is `run`'s `RuntimeError` message, which is modelled exactly.
- The SPARQL request encoding (UTF-8 body or form field, headers, timeout) is not modelled; the store is a function of the posted text. The meaning of the catalogue queries is not reasoned about either.
- `time.sleep` is not modelled: the loop records the waits it would make.
- The OpenAI client is a parameter. Its rate-limit status is read from the failure it raises. The client never raises `requests.HTTPError`, so `translate_only`'s 502 branch (lines 91-93) is never taken and is not modelled.
- The regular-expression engine is not modelled in general, only the four patterns the core uses. Their whitespace class and case-insensitive letters follow Python's Unicode `str` semantics.
- `str.lower().endswith(".json")` is modelled for the suffix `.json` only, lowering each character on its own. Of the non-ASCII characters only the Kelvin sign lowers to an ASCII letter, `k`; `k` does not occur in `.json`, so for this suffix only the ASCII capitals matter.
- Fences.StripFencedBlock, QueriesApi.NormalizeFencedBlock: the fence stripping is proved for a text holding one block, after text without a backquote and before text that closes no further block. A text with several blocks is covered only by the definition `Fences.StripFences`, which replaces the leftmost block and goes on after it; no lemma states the result for several blocks.
- Machine.Host.Launch, Server.UploadSuccess, Server.ConvertCases: a converter's run is modelled as only adding or overwriting files in the data directory, never deleting one. The conjuncts saying that `rules.yml` and `rules.rml.ttl` are still there after a conversion rest on that assumption; `server.py:109-113` itself checks only for `output.ttl`.
- Concurrency between requests is not modelled. Requests are handled one after another on the host.
- The server's start-up `mkdir` (`server.py:37`) is modelled as the `Host` constructor. The converters' containers are modelled only as their effect on the data directory.

## Notes on the code

- `write_data_json` takes the first value of an object that has no `rules` key, whatever that value is. It neither wraps the whole object nor checks that the value is a list.
- `/translate-run` posts the extracted query as it is. It applies neither `_normalize_query` nor `_ensure_prefixes`; those apply only to `queries_api.py`'s routes.
- `nl2sparql_openai.py`'s `run_sparql` uses `raise_for_status`, which raises only for 400-599. A 1xx or 3xx answer, or any other non-200 2xx, therefore goes on to the flattening. In `queries_api.py` every non-200 answer raises.
- `process_upload` only checks that `output.ttl` exists after the mapper ran. A file left by an earlier run therefore makes a mapper that exits 0 look successful (`Server.StaleOutputAccepted`).
