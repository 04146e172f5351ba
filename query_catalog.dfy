/**
 * The catalogue of named SPARQL queries over the data-quality graph: six entries in the
 * order the dictionary literal lists them, each a query text that declares the `ex` and
 * `xsd` prefixes itself.
 */
module QueryCatalog {
  import opened Wrappers
  import opened Sorting

  /** `QUERIES.keys()`, in insertion order. */
  const Names: seq<string> := [
    "Average score per database (asc)",
    "Average score per schema (asc)",
    "Databases with lowest avg score (with path)",
    "Schemas with lowest avg score (with path)",
    "Tables with lowest avg score (with path)",
    "Rules with lowest score (with code & path)"
  ]

  /** The lines every catalogue text opens with: a line break, then the declarations of the
      `ex` and `xsd` prefixes, indented as in the dictionary literal. */
  const Prolog: string := @"
        PREFIX ex: <http://example.org/>
        PREFIX xsd: <http://www.w3.org/2001/XMLSchema#>
"

  /** The query text stored under the `i`-th name. */
  function Text(i: nat): string
    requires i < |Names|
  {
    Prolog + Body(i)
  }

  /** What the `i`-th text holds after the prefix declarations. */
  function Body(i: nat): string
    requires i < |Names|
  {
    if i == 0 then
      @"        SELECT ?database (AVG(xsd:decimal(?score)) AS ?avgScore)
        WHERE { ?rule a ex:DQRule ; ex:techSystem ?database ; ex:score ?score . }
        GROUP BY ?database
        ORDER BY ASC(?avgScore)
    "
    else if i == 1 then
      @"        SELECT ?schema (AVG(xsd:decimal(?score)) AS ?avgScore)
        WHERE { ?rule a ex:DQRule ; ex:techGroup ?schema ; ex:score ?score . }
        GROUP BY ?schema
        ORDER BY ASC(?avgScore)
    "
    else if i == 2 then
      @"        SELECT ?database ?path ?avgScore
        WHERE {
          {
            SELECT ?database (AVG(xsd:decimal(?score)) AS ?avgScore)
            WHERE { ?r a ex:DQRule ; ex:techSystem ?database ; ex:score ?score . }
            GROUP BY ?database
          }
          {
            SELECT (MIN(?avg) AS ?minAvg)
            WHERE {
              SELECT (AVG(xsd:decimal(?score)) AS ?avg)
              WHERE { ?r a ex:DQRule ; ex:techSystem ?db ; ex:score ?score . }
              GROUP BY ?db
            }
          }
          FILTER (?avgScore = ?minAvg)
          BIND(STR(?database) AS ?path)
        }
    "
    else if i == 3 then
      @"        SELECT ?database ?schema ?path ?avgScore
        WHERE {
          {
            SELECT ?database ?schema (AVG(xsd:decimal(?score)) AS ?avgScore)
            WHERE { ?r a ex:DQRule ; ex:techSystem ?database ; ex:techGroup ?schema ; ex:score ?score . }
            GROUP BY ?database ?schema
          }
          {
            SELECT (MIN(?avg) AS ?minAvg)
            WHERE {
              SELECT (AVG(xsd:decimal(?score)) AS ?avg)
              WHERE { ?r a ex:DQRule ; ex:techSystem ?db ; ex:techGroup ?sch ; ex:score ?score . }
              GROUP BY ?db ?sch
            }
          }
          FILTER (?avgScore = ?minAvg)
          BIND(CONCAT(STR(?database), ""."", STR(?schema)) AS ?path)
        }
    "
    else if i == 4 then
      @"        SELECT ?database ?schema ?dataset ?path ?avgScore
        WHERE {
          {
            SELECT ?database ?schema ?dataset (AVG(xsd:decimal(?score)) AS ?avgScore)
            WHERE { ?r a ex:DQRule ; ex:techSystem ?database ; ex:techGroup ?schema ; ex:dataset ?dataset ; ex:score ?score . }
            GROUP BY ?database ?schema ?dataset
          }
          {
            SELECT (MIN(?avg) AS ?minAvg)
            WHERE {
              SELECT (AVG(xsd:decimal(?score)) AS ?avg)
              WHERE { ?r a ex:DQRule ; ex:techSystem ?db ; ex:techGroup ?sch ; ex:dataset ?ds ; ex:score ?score . }
              GROUP BY ?db ?sch ?ds
            }
          }
          FILTER (?avgScore = ?minAvg)
          BIND(CONCAT(STR(?database), ""."", STR(?schema), ""."", STR(?dataset)) AS ?path)
        }
    "
    else
      @"        SELECT ?rule ?ruleCode ?techSystem ?techGroup ?dataset ?dataElement ?path ?score
        WHERE {
          { SELECT (MIN(xsd:decimal(?s)) AS ?minScore) WHERE { ?r a ex:DQRule ; ex:score ?s . } }
          ?rule a ex:DQRule ; ex:score ?score ; ex:techSystem ?techSystem ; ex:techGroup ?techGroup ; ex:dataset ?dataset .
          OPTIONAL { ?rule ex:dataElement ?dataElement }
          OPTIONAL { ?rule ex:dataelement ?dataElement }  # lower-case tolerance
          OPTIONAL { ?rule ex:ruleCode ?ruleCode }
          FILTER (xsd:decimal(?score) = ?minScore)
          BIND(CONCAT(STR(?techSystem), ""."", STR(?techGroup), ""."", STR(?dataset),
                      IF(BOUND(?dataElement), CONCAT(""."", STR(?dataElement)), """")) AS ?path)
        }
    "
  }

  /** The position of `name` in the dictionary literal. */
  function IndexOf(name: string): (r: Option<nat>)
    ensures r.Some? ==> r.value < |Names| && Names[r.value] == name
    ensures r.None? <==> name !in Names
  {
    IndexFrom(name, 0)
  }

  function IndexFrom(name: string, from: nat): (r: Option<nat>)
    requires from <= |Names|
    ensures r.Some? ==> from <= r.value < |Names| && Names[r.value] == name
    ensures r.None? <==> forall i :: from <= i < |Names| ==> Names[i] != name
    decreases |Names| - from
  {
    if from == |Names| then None
    else if Names[from] == name then Some(from)
    else IndexFrom(name, from + 1)
  }

  /** `QUERIES`: the immutable dictionary from each name to the query text stored under it. */
  const Queries: map<string, string> :=
    map n | n in Names :: Text(IndexOf(n).value)

  /** `QUERIES.get(name)`. */
  function Get(name: string): Option<string>
  {
    if name in Queries then Some(Queries[name]) else None
  }

  /** Exactly the catalogue's names are in the dictionary, each with its own text. */
  lemma GetCatalog(name: string)
    ensures Get(name).Some? <==> name in Names
    ensures forall i :: 0 <= i < |Names| && Names[i] == name ==> Get(name) == Some(Text(i))
  {
    if name in Names {
      var k := IndexOf(name).value;
      assert Get(name) == Some(Text(k));
      CatalogShape();
      assert forall i :: 0 <= i < |Names| && Names[i] == name ==> i == k;
    }
  }

  /** No query text is empty, so `if not q` never rejects a catalogue name. */
  lemma NonEmptyText(i: nat)
    requires i < |Names|
    ensures |Text(i)| > 0
  {
    assert Prolog == "\n        PREFIX ex: <http://example.org/>\n        PREFIX xsd: <http://www.w3.org/2001/XMLSchema#>\n";
  }

  /** The catalogue has six entries, no two under the same name. */
  lemma CatalogShape()
    ensures |Names| == 6 && Distinct(Names)
  {
    var lengths := [32, 30, 43, 41, 40, 42];
    assert forall i :: 0 <= i < 6 ==> |Names[i]| == lengths[i];
  }

  /** `sorted(list(QUERIES.keys()))`. */
  function ListQueries(): seq<string>
  {
    Sort(Names)
  }

  /** The listing holds every catalogue name exactly once, in ascending order. */
  lemma ListQueriesOrdered()
    ensures var r := ListQueries();
      && |r| == |Names|
      && (forall n :: n in r <==> n in Names)
      && (forall i, j :: 0 <= i < j < |r| ==> StrLess(r[i], r[j]))
  {
    var r := ListQueries();
    SortKeepsElements(Names);
    CatalogShape();
    PermutationKeepsDistinct(Names, r);
    SortedDistinctAscending(r);
  }
}
