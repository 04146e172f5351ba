/**
 * Flattening of a SPARQL query result in the JSON results format (W3C "SPARQL 1.1 Query
 * Results JSON Format", section 3.2): the document's `results.bindings` array holds one
 * object per solution, mapping each bound variable to an RDF term object whose `value`
 * member is the term's lexical form.  Both query handlers turn it into one row per
 * solution, mapping each variable to that `value`, with Python's lenient `dict.get`
 * lookups and the exceptions its iteration raises on other shapes.
 */
module SparqlResults {
  import opened Wrappers
  import opened Json

  /** One flattened solution: every variable of the binding, in the binding's order, with
      the term's `value` member (`None` where the term has none, which `jsonify` renders
      as `null`). */
  type Row = seq<(string, Option<Json>)>

  /** Why the comprehension raises: the place where Python finds a value of the wrong type. */
  datatype ShapeError =
    | DocumentNotObject                       // `r.json().get` on a non-object
    | ResultsNotObject                        // `.get("bindings", [])` on a non-object
    | BindingsNotIterable                     // `for b in bindings` on null, a boolean or a number
    | BindingNotObject(index: nat)            // `b.items()` on a non-object element
    | TermNotObject(index: nat, variable: string) // `v.get("value")` on a non-object term

  /** What a binding must look like for its row to be built: an object of term objects. */
  predicate BindingShaped(b: Json)
  {
    b.Object? && forall j :: 0 <= j < |b.members| ==> b.members[j].1.Object?
  }

  /** `row` is the flattening of the binding `b`: the same variables in the same order, each
      with its term's `value`. */
  predicate RowOf(b: Json, row: Row)
    requires BindingShaped(b)
  {
    && |row| == |b.members|
    && forall j :: 0 <= j < |row| ==>
         row[j] == (b.members[j].0, Lookup(b.members[j].1.members, "value"))
  }

  /** `{k: v.get("value") for k, v in b.items()}` over the members from index `j` on. */
  function FlattenTerms(members: seq<(string, Json)>, index: nat): (r: Result<Row, ShapeError>)
    ensures r.Ok? <==> forall j :: 0 <= j < |members| ==> members[j].1.Object?
    ensures r.Ok? ==>
      && |r.value| == |members|
      && forall j :: 0 <= j < |members| ==>
           r.value[j] == (members[j].0, Lookup(members[j].1.members, "value"))
    ensures r.Err? ==>
      exists j :: 0 <= j < |members| && !members[j].1.Object? &&
                  r.error == TermNotObject(index, members[j].0)
  {
    if members == [] then Ok([])
    else
      match members[0].1
      case Object(term) =>
        var rest := FlattenTerms(members[1..], index);
        if rest.Err? then
          assert !members[1..][0].1.Object? || exists j :: 0 <= j < |members| - 1 && !members[1..][j].1.Object?;
          rest
        else
          Ok([(members[0].0, Lookup(term, "value"))] + rest.value)
      case _ => Err(TermNotObject(index, members[0].0))
  }

  /** The rows of the bindings from position `from` on. */
  function FlattenFrom(bindings: seq<Json>, from: nat): (r: Result<seq<Row>, ShapeError>)
    requires from <= |bindings|
    ensures r.Ok? <==> forall i :: from <= i < |bindings| ==> BindingShaped(bindings[i])
    ensures r.Ok? ==>
      && |r.value| == |bindings| - from
      && forall i :: from <= i < |bindings| ==> RowOf(bindings[i], r.value[i - from])
    decreases |bindings| - from
  {
    if from == |bindings| then Ok([])
    else
      match bindings[from]
      case Object(members) =>
        var row := FlattenTerms(members, from);
        if row.Err? then Err(row.error)
        else
          var rest := FlattenFrom(bindings, from + 1);
          if rest.Err? then rest else Ok([row.value] + rest.value)
      case _ => Err(BindingNotObject(from))
  }

  /** `for b in bindings` for each JSON type: an array yields its elements, an object its
      keys and a string its characters (neither of which has `.items`), and the other
      types cannot be iterated. */
  function FlattenBindings(bindings: Json): (r: Result<seq<Row>, ShapeError>)
  {
    match bindings
    case Array(items) => FlattenFrom(items, 0)
    case Object(members) => if members == [] then Ok([]) else Err(BindingNotObject(0))
    case String(s) => if s == [] then Ok([]) else Err(BindingNotObject(0))
    case _ => Err(BindingsNotIterable)
  }

  /** `r.json().get("results", {}).get("bindings", [])`, then one row per binding. */
  function Flatten(doc: Json): (r: Result<seq<Row>, ShapeError>)
  {
    if !doc.Object? then Err(DocumentNotObject)
    else
      match GetOr(doc.members, "results", Object([]))
      case Object(results) => FlattenBindings(GetOr(results, "bindings", Array([])))
      case _ => Err(ResultsNotObject)
  }

  /** A results document in the standard shape: `results.bindings` is an array of objects of
      term objects. */
  predicate Standard(doc: Json)
  {
    && doc.Object? && HasKey(doc.members, "results")
    && var results := GetOr(doc.members, "results", Object([]));
    && results.Object? && HasKey(results.members, "bindings")
    && var bindings := GetOr(results.members, "bindings", Array([]));
    && bindings.Array?
    && forall i :: 0 <= i < |bindings.items| ==> BindingShaped(bindings.items[i])
  }

  /** The solutions of a standard document. */
  function Solutions(doc: Json): seq<Json>
    requires Standard(doc)
  {
    GetOr(GetOr(doc.members, "results", Object([])).members, "bindings", Array([])).items
  }

  /** On a standard document the flattening succeeds with one row per solution, in order,
      each holding exactly that solution's variables and their values. */
  lemma FlattenStandard(doc: Json)
    requires Standard(doc)
    ensures Flatten(doc).Ok?
    ensures var rows := Flatten(doc).value;
            var sols := Solutions(doc);
            |rows| == |sols| && forall i :: 0 <= i < |rows| ==> RowOf(sols[i], rows[i])
  {
    var sols := Solutions(doc);
    var r := FlattenFrom(sols, 0);
    assert r.Ok?;
    forall i | 0 <= i < |sols|
      ensures RowOf(sols[i], r.value[i])
    {
      assert RowOf(sols[i], r.value[i - 0]);
    }
  }

  /** Conversely, whenever the flattening yields rows from an array of bindings, every
      binding was an object of term objects and the rows correspond one to one. */
  lemma FlattenArrayExact(items: seq<Json>, rows: seq<Row>)
    requires FlattenBindings(Array(items)) == Ok(rows)
    ensures |rows| == |items|
    ensures forall i :: 0 <= i < |items| ==> BindingShaped(items[i]) && RowOf(items[i], rows[i])
  {
    forall i | 0 <= i < |items|
      ensures BindingShaped(items[i]) && RowOf(items[i], rows[i])
    {
      assert BindingShaped(items[i]) && RowOf(items[i], rows[i - 0]);
    }
  }

  /** A document whose `results` or `bindings` is missing has no rows rather than an error,
      because both lookups have defaults. */
  lemma MissingPartsGiveNoRows(doc: Json)
    requires doc.Object?
    requires !HasKey(doc.members, "results") ||
             (var results := GetOr(doc.members, "results", Object([]));
              results.Object? && !HasKey(results.members, "bindings"))
    ensures Flatten(doc) == Ok([])
  {
    var results := GetOr(doc.members, "results", Object([]));
    if HasKey(doc.members, "results") {
      assert GetOr(results.members, "bindings", Array([])) == Array([]);
    } else {
      assert results == Object([]);
    }
  }

  /** The rows as the JSON array `jsonify` sends back. */
  function RowsJson(rows: seq<Row>): Json
  {
    Array(seq(|rows|, i requires 0 <= i < |rows| => RowJson(rows[i])))
  }

  /** A row as a JSON object; a missing value becomes `null`. */
  function RowJson(row: Row): Json
  {
    Object(seq(|row|, j requires 0 <= j < |row| =>
      (row[j].0, if row[j].1.Some? then row[j].1.value else Null)))
  }

  /** What the triple store does with a request: no answer at all (the connection fails or
      times out), or an answer with a status code, a body text and, when the body parses
      as JSON, its value. */
  datatype StoreReply =
    | Unreachable(reason: string)
    | Responded(status: int, text: string, body: Option<Json>)

  /** An exception other than an HTTP status error raised while running a query. */
  datatype Cause =
    | ConnectionFailed(reason: string)   // from `requests.post`
    | BodyNotJson                        // from `r.json()`
    | BadShape(error: ShapeError)        // from the flattening comprehension

  /** `r.json()` followed by the flattening. */
  function ReadRows(body: Option<Json>): Result<seq<Row>, Cause>
  {
    match body
    case None => Err(BodyNotJson)
    case Some(doc) =>
      match Flatten(doc)
      case Ok(rows) => Ok(rows)
      case Err(e) => Err(BadShape(e))
  }
}
