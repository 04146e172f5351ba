/**
 * The rules canonicalisation: an uploaded JSON document becomes the payload
 * `{"rules": ...}` the mapping rules read from `data.json`, or is refused.
 */
module JsonTransform {
  import opened Wrappers
  import opened Json
  import opened Machine

  /** Why `write_data_json` raises `ValueError`. */
  datatype TransformError =
    | InvalidJson(detail: string)   // `json.loads` failed with the decoder's message `detail`
    | NotArrayOrObject              // a string, number, boolean or null

  /** The text of the `ValueError`. */
  function ErrorText(e: TransformError): string
  {
    match e
    case InvalidJson(detail) => "Invalid JSON: " + detail
    case NotArrayOrObject => "JSON must be an array or an object"
  }

  /** The payload `write_data_json` writes for the parsed upload (`Err` with the decoder's
      message when it does not parse): an array is wrapped under `rules`, an object with a
      `rules` key is kept as it is, and any other object is replaced by its first value (an
      empty array for an empty object) wrapped under `rules`. */
  function Canonical(parsed: Result<Json, string>): Result<Json, TransformError>
  {
    match parsed
    case Err(detail) => Err(InvalidJson(detail))
    case Ok(doc) =>
      match doc
      case Array(_) => Ok(Object([("rules", doc)]))
      case Object(members) =>
        if HasKey(members, "rules") then Ok(doc)
        else Ok(Object([("rules", if members == [] then Array([]) else members[0].1)]))
      case _ => Err(NotArrayOrObject)
  }

  /** The `rules` value of the payload, for every kind of upload. */
  lemma CanonicalRules(parsed: Result<Json, string>)
    ensures var r := Canonical(parsed);
      && (r.Ok? <==> parsed.Ok? && (parsed.value.Array? || parsed.value.Object?))
      && (parsed.Err? ==> r == Err(InvalidJson(parsed.error)))
      && (r.Ok? ==> r.value.Object? && HasKey(r.value.members, "rules"))
      && (r.Ok? && parsed.value.Array? ==>
            r.value.members == [("rules", parsed.value)])
      && (r.Ok? && parsed.value.Object? && HasKey(parsed.value.members, "rules") ==>
            r.value == parsed.value)
      && (r.Ok? && parsed.value.Object? && !HasKey(parsed.value.members, "rules") ==>
            && |r.value.members| == 1
            && GetOr(r.value.members, "rules", Null) ==
                 (if parsed.value.members == [] then Array([]) else parsed.value.members[0].1))
  {
    var r := Canonical(parsed);
    if r.Ok? && !(parsed.value.Object? && HasKey(parsed.value.members, "rules")) {
      assert r.value.members[0].0 == "rules";
    }
  }

  /** A written payload is written again unchanged: canonicalisation is idempotent. */
  lemma CanonicalIdempotent(parsed: Result<Json, string>)
    requires Canonical(parsed).Ok?
    ensures Canonical(Ok(Canonical(parsed).value)) == Canonical(parsed)
  {
    CanonicalRules(parsed);
  }

  /** `JsonTransformer`: an object bound to the path it writes. */
  class JsonTransformer {
    const host: Host
    const path: FileName

    /** `__init__`: remembers the path and creates its parent directory. */
    constructor (host: Host, path: FileName)
      modifies host
      ensures this.host == host && this.path == path
      ensures host.State() == old(host.State()).(dataDir := true)
    {
      this.host := host;
      this.path := path;
      new;
      host.MakeDataDir();
    }

    /** `write_data_json` for the parsed upload: the payload is written over the file, or
        nothing is written when the upload is refused. */
    method WriteDataJson(parsed: Result<Json, string>) returns (r: Option<TransformError>)
      modifies host
      ensures Canonical(parsed).Err? ==>
        r == Some(Canonical(parsed).error) && host.State() == old(host.State())
      ensures Canonical(parsed).Ok? ==>
        && r.None?
        && host.State() == old(host.State()).(files := old(host.files)[path := Written(Canonical(parsed).value)])
    {
      match Canonical(parsed)
      case Err(e) =>
        r := Some(e);
      case Ok(payload) =>
        host.Write(path, Written(payload));
        r := None;
    }
  }
}
