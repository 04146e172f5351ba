/**
 * The upload pipeline of the Flask server: an uploaded rules document is canonicalised into
 * `data.json`, the YARRRML rules are compiled to RML once, and the RML mapper turns the data
 * into `output.ttl`, each converter running in a container.
 */
module Server {
  import opened Wrappers
  import opened Text
  import opened Json
  import opened Machine
  import opened JsonTransform

  // ---------------------------------------------------------------------------------------
  // Running a command

  /** What a failed command's message is made of. */
  function FailureMessage(cmd: Command, o: RunOutcome): string
  {
    "Command failed:\n" + Join(cmd, " ") + "\n\nSTDOUT:\n" + o.stdout + "\nSTDERR:\n" + o.stderr
  }

  /** `run` once the process has finished: its standard output when it exits 0, otherwise a
      `RuntimeError` with the command line and both streams. */
  function CommandResult(cmd: Command, o: RunOutcome): (r: Result<string, string>)
    ensures r.Ok? <==> o.code == 0
    ensures r.Ok? ==> r.value == o.stdout
  {
    if o.code != 0 then Err(FailureMessage(cmd, o)) else Ok(o.stdout)
  }

  /** On success the error stream is ignored; on failure the exact non-zero code is, and the
      message starts with the command line and ends with the error stream. */
  lemma CommandResultIgnores(cmd: Command, o: RunOutcome, o': RunOutcome)
    requires o.stdout == o'.stdout
    ensures o.code == 0 == o'.code ==> CommandResult(cmd, o) == CommandResult(cmd, o')
    ensures o.code != 0 && o'.code != 0 && o.stderr == o'.stderr ==>
              CommandResult(cmd, o) == CommandResult(cmd, o')
    ensures o.code != 0 ==>
      var m := CommandResult(cmd, o).error;
      var head := "Command failed:\n" + Join(cmd, " ");
      var tail := "\nSTDERR:\n" + o.stderr;
      && |head| + |tail| <= |m|
      && m[..|head|] == head
      && m[|m| - |tail|..] == tail
  {
    if o.code != 0 {
      var head := "Command failed:\n" + Join(cmd, " ");
      var mid := "\n\nSTDOUT:\n" + o.stdout;
      var tail := "\nSTDERR:\n" + o.stderr;
      assert FailureMessage(cmd, o) == head + mid + tail;
    }
  }

  /** An exception that `process_upload` turns into `ok=False` with its text. */
  datatype Failure =
    | NotUtf8(detail: string)          // `decode("utf-8")`, with the decoder's message
    | Refused(error: TransformError)   // `write_data_json`
    | MissingRules(path: string)       // `FileNotFoundError` of the compile step
    | CommandFailed(message: string)   // `RuntimeError` of `run`

  /** The machine after a step and what the step returned or raised. */
  datatype Step = Step(world: World, result: Result<string, Failure>)

  /** Launching `cmd` and `run`'s verdict on it. */
  function RunSpec(w: World, converter: (nat, Command) -> RunOutcome, cmd: Command): Step
  {
    var o := converter(|w.launched|, cmd);
    Step(AfterRun(w, cmd, o),
         match CommandResult(cmd, o)
         case Ok(out) => Ok(out)
         case Err(m) => Err(CommandFailed(m)))
  }

  /** `run`. */
  method Run(host: Host, cmd: Command) returns (r: Result<string, Failure>)
    modifies host
    ensures Step(host.State(), r) == RunSpec(old(host.State()), host.converter, cmd)
  {
    var o := host.Launch(cmd);
    if o.code != 0 {
      r := Err(CommandFailed(FailureMessage(cmd, o)));
    } else {
      r := Ok(o.stdout);
    }
  }

  // ---------------------------------------------------------------------------------------
  // The two conversion steps

  const YarrrmlImage := "rmlio/yarrrml-parser:1.10.0"
  const RmlMapperImage := "rmlio/rmlmapper-java:v7.3.3"

  /** The container command lines, with the data directory mounted at `/data`. */
  function YarrrmlCommand(root: string): Command
  {
    ["docker", "run", "--rm", "-i", "-v", root + ":/data", YarrrmlImage,
     "-i", "/data/rules.yml", "-o", "/data/rules.rml.ttl"]
  }

  function MapperCommand(root: string): Command
  {
    ["docker", "run", "--rm", "-i", "-v", root + ":/data", RmlMapperImage,
     "-m", "/data/rules.rml.ttl", "-o", "/data/output.ttl"]
  }

  const SkipNote := "rules.rml.ttl already exists; skipping YARRRML → RML."

  /** `compile_yarrrml_to_rml`: refuses without `rules.yml`, skips when `rules.rml.ttl` is
      there, and otherwise runs the YARRRML parser. */
  function CompileSpec(w: World, converter: (nat, Command) -> RunOutcome, root: string): Step
  {
    if RulesYml !in w.files then Step(w, Err(MissingRules(root + "/rules.yml")))
    else if RulesRmlTtl in w.files then Step(w, Ok(SkipNote))
    else RunSpec(w, converter, YarrrmlCommand(root))
  }

  method Compile(host: Host) returns (r: Result<string, Failure>)
    modifies host
    ensures Step(host.State(), r) == CompileSpec(old(host.State()), host.converter, host.root)
  {
    if RulesYml !in host.files {
      r := Err(MissingRules(host.root + "/rules.yml"));
    } else if RulesRmlTtl in host.files {
      r := Ok(SkipNote);
    } else {
      r := Run(host, YarrrmlCommand(host.root));
    }
  }

  /** `run_rmlmapper_to_ttl`: the mapper is run every time. */
  function MapperSpec(w: World, converter: (nat, Command) -> RunOutcome, root: string): Step
  {
    RunSpec(w, converter, MapperCommand(root))
  }

  method RunMapper(host: Host) returns (r: Result<string, Failure>)
    modifies host
    ensures Step(host.State(), r) == MapperSpec(old(host.State()), host.converter, host.root)
  {
    r := Run(host, MapperCommand(host.root));
  }

  /** The compile step launches the parser exactly when `rules.yml` is there and
      `rules.rml.ttl` is not; otherwise it changes nothing. */
  lemma CompileLaunches(w: World, converter: (nat, Command) -> RunOutcome, root: string)
    ensures var c := CompileSpec(w, converter, root);
      && (RulesYml in w.files && RulesRmlTtl !in w.files ==>
            c.world.launched == w.launched + [YarrrmlCommand(root)])
      && (RulesYml !in w.files || RulesRmlTtl in w.files ==> c.world == w)
      && (RulesYml !in w.files <==> c.result.Err? && c.result.error.MissingRules?)
      && (RulesYml in w.files && RulesRmlTtl in w.files ==> c.result == Ok(SkipNote))
  {
  }

  /** The mapper step always launches the mapper. */
  lemma MapperLaunches(w: World, converter: (nat, Command) -> RunOutcome, root: string)
    ensures var m := MapperSpec(w, converter, root);
            var o := converter(|w.launched|, MapperCommand(root));
      && m.world.launched == w.launched + [MapperCommand(root)]
      && m.world.files == w.files + o.creates
      && (m.result.Ok? <==> o.code == 0)
  {
  }

  // ---------------------------------------------------------------------------------------
  // `process_upload`

  /** The bytes of an uploaded file: not UTF-8, or a text that `json.loads` parses (`Ok`) or
      refuses (`Err`), each with the decoder's message. */
  datatype Bytes = Undecodable(detail: string) | Decoded(parsed: Result<Json, string>)

  /** The `file` field of the form: its file name and its bytes. */
  datatype FileField = FileField(filename: string, content: Bytes)

  /** The replies; `ErrorText` gives their error texts. */
  datatype UploadBody =
    | NoFileField
    | NoFileSelected
    | NotJsonName
    | NotGenerated(file: FileName)   // a 500 without `ok`
    | Crashed(failure: Failure)      // a 500 with `ok=False` and the exception's text
    | Processed                      // `ok=True`, the note and the three download paths

  datatype UploadReply = UploadReply(status: int, body: UploadBody)

  /** The three download paths of a processed upload. */
  const DownloadPaths: seq<(string, string)> :=
    [("data_json", "/files/data.json"),
     ("rules_rml_ttl", "/files/rules.rml.ttl"),
     ("output_ttl", "/files/output.ttl")]

  function ErrorText(b: UploadBody): string
  {
    match b
    case NoFileField => "No 'file' in form-data."
    case NoFileSelected => "No file selected."
    case NotJsonName => "Please upload a .json file."
    case NotGenerated(RulesRmlTtl) => "rules.rml.ttl was not generated."
    case NotGenerated(_) => "output.ttl was not generated."
    case Crashed(NotUtf8(detail)) => detail
    case Crashed(Refused(e)) => JsonTransform.ErrorText(e)
    case Crashed(MissingRules(path)) => "Missing " + path
    case Crashed(CommandFailed(m)) => m
    case Processed => ""
  }

  /** The machine after the request and the reply. */
  datatype Outcome = Outcome(world: World, reply: UploadReply)

  /** Whether the form passes the three checks. */
  predicate Acceptable(file: Option<FileField>)
  {
    file.Some? && |file.value.filename| > 0 && EndsWithIgnoringCase(file.value.filename, ".json")
  }

  /** `process_upload`. */
  function Process(w: World, converter: (nat, Command) -> RunOutcome, root: string,
                   file: Option<FileField>): Outcome
  {
    match file
    case None => Outcome(w, UploadReply(400, NoFileField))
    case Some(f) =>
      if |f.filename| == 0 then Outcome(w, UploadReply(400, NoFileSelected))
      else if !EndsWithIgnoringCase(f.filename, ".json") then Outcome(w, UploadReply(400, NotJsonName))
      else
        match f.content
        case Undecodable(detail) => Outcome(w, UploadReply(500, Crashed(NotUtf8(detail))))
        case Decoded(parsed) => Transform(w.(dataDir := true), converter, root, parsed)
  }

  /** From the canonicalisation on. */
  function Transform(w: World, converter: (nat, Command) -> RunOutcome, root: string,
                     parsed: Result<Json, string>): Outcome
  {
    match Canonical(parsed)
    case Err(e) => Outcome(w, UploadReply(500, Crashed(Refused(e))))
    case Ok(payload) => Convert(w.(files := w.files[DataJson := Written(payload)]), converter, root)
  }

  /** From the compile step on. */
  function Convert(w: World, converter: (nat, Command) -> RunOutcome, root: string): Outcome
  {
    var c := CompileSpec(w, converter, root);
    if c.result.Err? then Outcome(c.world, UploadReply(500, Crashed(c.result.error)))
    else if RulesRmlTtl !in c.world.files then Outcome(c.world, UploadReply(500, NotGenerated(RulesRmlTtl)))
    else Map(c.world, converter, root)
  }

  /** From the mapper on. */
  function Map(w: World, converter: (nat, Command) -> RunOutcome, root: string): Outcome
  {
    var m := MapperSpec(w, converter, root);
    if m.result.Err? then Outcome(m.world, UploadReply(500, Crashed(m.result.error)))
    else if OutputTtl !in m.world.files then Outcome(m.world, UploadReply(500, NotGenerated(OutputTtl)))
    else Outcome(m.world, UploadReply(200, Processed))
  }

  /** `POST /api/process-upload`, step by step on the machine. */
  method ProcessUpload(host: Host, file: Option<FileField>) returns (reply: UploadReply)
    modifies host
    ensures Outcome(host.State(), reply) == Process(old(host.State()), host.converter, host.root, file)
  {
    if file.None? {
      return UploadReply(400, NoFileField);
    }
    var f := file.value;
    if |f.filename| == 0 {
      return UploadReply(400, NoFileSelected);
    }
    if !EndsWithIgnoringCase(f.filename, ".json") {
      return UploadReply(400, NotJsonName);
    }
    if f.content.Undecodable? {
      return UploadReply(500, Crashed(NotUtf8(f.content.detail)));
    }
    var transformer := new JsonTransformer(host, DataJson);
    var refused := transformer.WriteDataJson(f.content.parsed);
    if refused.Some? {
      return UploadReply(500, Crashed(Refused(refused.value)));
    }
    var compiled := Compile(host);
    if compiled.Err? {
      return UploadReply(500, Crashed(compiled.error));
    }
    if RulesRmlTtl !in host.files {
      return UploadReply(500, NotGenerated(RulesRmlTtl));
    }
    var mapped := RunMapper(host);
    if mapped.Err? {
      return UploadReply(500, Crashed(mapped.error));
    }
    if OutputTtl !in host.files {
      return UploadReply(500, NotGenerated(OutputTtl));
    }
    return UploadReply(200, Processed);
  }

  // ---------------------------------------------------------------------------------------
  // Properties of the pipeline

  /** After the compile step: the mapper is launched every time; the upload succeeds
      exactly when it exits 0 and `output.ttl` is then in the data directory, whether the
      mapper wrote it or an earlier run left it. */
  lemma MapCases(w: World, converter: (nat, Command) -> RunOutcome, root: string)
    ensures var x := Map(w, converter, root);
            var o := converter(|w.launched|, MapperCommand(root));
      && x.world == AfterRun(w, MapperCommand(root), o)
      && (x.reply.status == 200 <==> o.code == 0 && (OutputTtl in w.files || OutputTtl in o.creates))
      && (x.reply.status == 200 ==> x.reply.body == Processed)
      && (x.reply.status != 200 ==> x.reply.status == 500)
      && (o.code != 0 ==> x.reply.body == Crashed(CommandFailed(FailureMessage(MapperCommand(root), o))))
      && (o.code == 0 && OutputTtl !in w.files && OutputTtl !in o.creates ==>
            x.reply.body == NotGenerated(OutputTtl))
  {
  }

  /** From the compile step on: the mapper runs only after a compile step that did not
      raise and left `rules.rml.ttl`, and a success leaves both generated files. */
  lemma ConvertCases(w: World, converter: (nat, Command) -> RunOutcome, root: string)
    ensures var x := Convert(w, converter, root);
            var c := CompileSpec(w, converter, root);
            var ready := c.result.Ok? && RulesRmlTtl in c.world.files;
      && (ready ==> x.world.launched == c.world.launched + [MapperCommand(root)])
      && (!ready ==> x.world == c.world && x.reply.status == 500)
      && (c.result.Ok? && RulesRmlTtl !in c.world.files ==> x.reply.body == NotGenerated(RulesRmlTtl))
      && (x.reply.status == 200 || x.reply.status == 500)
      && (x.reply.status == 200 ==>
            ready && RulesRmlTtl in x.world.files && OutputTtl in x.world.files)
      && w.launched <= c.world.launched
      && (RulesRmlTtl in w.files ==> c.world == w)
  {
    var c := CompileSpec(w, converter, root);
    if c.result.Ok? && RulesRmlTtl in c.world.files {
      MapCases(c.world, converter, root);
    }
  }

  /** The upload checks: the form is answered 400 exactly when it has no `file`, the file
      has no name, or the name does not end in `.json` in any case, and then nothing is
      written, created or run. */
  lemma UploadValidation(w: World, converter: (nat, Command) -> RunOutcome, root: string,
                         file: Option<FileField>)
    ensures var x := Process(w, converter, root, file);
      && (x.reply.status == 400 <==> !Acceptable(file))
      && (!Acceptable(file) ==> x.world == w)
      && (x.reply.body == NoFileField <==> file.None?)
      && (x.reply.body == NoFileSelected <==> file.Some? && file.value.filename == "")
      && (x.reply.body == NotJsonName <==>
            file.Some? && file.value.filename != "" && !EndsWithIgnoringCase(file.value.filename, ".json"))
  {
    if Acceptable(file) && file.value.content.Decoded? {
      var parsed := file.value.content.parsed;
      var w1 := w.(dataDir := true);
      if Canonical(parsed).Ok? {
        ConvertCases(w1.(files := w1.files[DataJson := Written(Canonical(parsed).value)]), converter, root);
      }
    }
  }

  /** A refused document (not UTF-8, not JSON, or neither an array nor an object) is
      answered 500 with the error, and nothing is written or run. */
  lemma UploadRefused(w: World, converter: (nat, Command) -> RunOutcome, root: string,
                      file: Option<FileField>)
    requires Acceptable(file)
    requires file.value.content.Undecodable? || Canonical(file.value.content.parsed).Err?
    ensures var x := Process(w, converter, root, file);
      && x.reply.status == 500 && x.reply.body.Crashed?
      && x.world.files == w.files && x.world.launched == w.launched
  {
  }

  /** The steps run in their order: the converters launched by one upload are none, the
      parser, the mapper, or the parser then the mapper; anything is launched only after the
      payload was written over `data.json`; the parser only when `rules.yml` is there and
      `rules.rml.ttl` is not; and the mapper only once `rules.rml.ttl` is there. */
  lemma UploadOrder(w: World, converter: (nat, Command) -> RunOutcome, root: string,
                    file: Option<FileField>)
    ensures var x := Process(w, converter, root, file);
            var y := YarrrmlCommand(root);
            var m := MapperCommand(root);
      && w.launched <= x.world.launched
      && var runs := x.world.launched[|w.launched|..];
      && (runs == [] || runs == [y] || runs == [m] || runs == [y, m])
      && (runs != [] ==>
            && Acceptable(file) && file.value.content.Decoded?
            && Canonical(file.value.content.parsed).Ok?
            && var w1 := w.(dataDir := true);
            var written := w1.(files := w1.files[DataJson := Written(Canonical(file.value.content.parsed).value)]);
            && (runs[0] == y ==> RulesYml in w.files && RulesRmlTtl !in w.files)
            && (runs[|runs| - 1] == m ==>
                  RulesRmlTtl in CompileSpec(written, converter, root).world.files))
  {
    var x := Process(w, converter, root, file);
    if Acceptable(file) && file.value.content.Decoded? && Canonical(file.value.content.parsed).Ok? {
      var w1 := w.(dataDir := true);
      var written := w1.(files := w1.files[DataJson := Written(Canonical(file.value.content.parsed).value)]);
      ConvertCases(written, converter, root);
      CompileLaunches(written, converter, root);
      var c := CompileSpec(written, converter, root);
      assert c.world.launched[|w.launched|..] == [] || c.world.launched[|w.launched|..] == [YarrrmlCommand(root)];
    } else {
      assert x.world.launched == w.launched;
    }
  }

  /** The replies: 400 for the form checks, 500 for every exception and for a missing
      generated file, and 200 only for a processed upload. */
  lemma UploadStatuses(w: World, converter: (nat, Command) -> RunOutcome, root: string,
                       file: Option<FileField>)
    ensures var x := Process(w, converter, root, file);
      && (x.reply.status == 200 || x.reply.status == 400 || x.reply.status == 500)
      && (x.reply.status == 200 <==> x.reply.body == Processed)
      && (x.reply.status == 500 <==> x.reply.body.Crashed? || x.reply.body.NotGenerated?)
  {
    UploadValidation(w, converter, root, file);
    if Acceptable(file) && file.value.content.Decoded? && Canonical(file.value.content.parsed).Ok? {
      var w1 := w.(dataDir := true);
      var written := w1.(files := w1.files[DataJson := Written(Canonical(file.value.content.parsed).value)]);
      ConvertCases(written, converter, root);
      var c := CompileSpec(written, converter, root);
      if c.result.Ok? && RulesRmlTtl in c.world.files {
        MapCases(c.world, converter, root);
      }
    }
  }

  /** A processed upload passed the checks, had its payload written, found `rules.yml`,
      ended with a mapper run, and leaves the rules and both generated files in the data
      directory. */
  lemma UploadSuccess(w: World, converter: (nat, Command) -> RunOutcome, root: string,
                      file: Option<FileField>)
    requires Process(w, converter, root, file).reply.status == 200
    ensures var x := Process(w, converter, root, file);
      && Acceptable(file) && file.value.content.Decoded?
      && Canonical(file.value.content.parsed).Ok?
      && RulesYml in w.files
      && x.world.dataDir
      && RulesYml in x.world.files && RulesRmlTtl in x.world.files && OutputTtl in x.world.files
      && |x.world.launched| > |w.launched|
      && x.world.launched[|x.world.launched| - 1] == MapperCommand(root)
  {
    UploadValidation(w, converter, root, file);
    var w1 := w.(dataDir := true);
    var written := w1.(files := w1.files[DataJson := Written(Canonical(file.value.content.parsed).value)]);
    ConvertCases(written, converter, root);
    CompileLaunches(written, converter, root);
    var c := CompileSpec(written, converter, root);
    MapCases(c.world, converter, root);
  }

  /** Without `rules.yml` an accepted upload is answered 500 naming the missing file, after
      its payload was written, and nothing is launched. */
  lemma UploadMissingRules(w: World, converter: (nat, Command) -> RunOutcome, root: string,
                           file: Option<FileField>)
    requires Acceptable(file) && file.value.content.Decoded?
    requires Canonical(file.value.content.parsed).Ok?
    requires RulesYml !in w.files
    ensures var x := Process(w, converter, root, file);
      && x.reply == UploadReply(500, Crashed(MissingRules(root + "/rules.yml")))
      && x.world.files == w.files[DataJson := Written(Canonical(file.value.content.parsed).value)]
      && x.world.launched == w.launched
  {
  }

  /** When `output.ttl` is left from an earlier run, an accepted upload whose mapper exits 0
      is answered 200 whatever that run produced: the check finds the old file. */
  lemma StaleOutputAccepted(w: World, converter: (nat, Command) -> RunOutcome, root: string,
                            file: Option<FileField>)
    requires Acceptable(file) && file.value.content.Decoded?
    requires Canonical(file.value.content.parsed).Ok?
    requires RulesYml in w.files && RulesRmlTtl in w.files && OutputTtl in w.files
    requires converter(|w.launched|, MapperCommand(root)).code == 0
    ensures var x := Process(w, converter, root, file);
      && x.reply == UploadReply(200, Processed)
      && x.world.launched == w.launched + [MapperCommand(root)]
  {
    var w1 := w.(dataDir := true);
    var written := w1.(files := w1.files[DataJson := Written(Canonical(file.value.content.parsed).value)]);
    CompileLaunches(written, converter, root);
    MapCases(written, converter, root);
  }

  /** After a processed upload the rules are compiled: a later upload never launches the
      parser, launches the mapper once when it is accepted, and is answered 200 exactly when
      that mapper run exits 0. */
  lemma SecondUploadSkipsCompile(w: World, converter: (nat, Command) -> RunOutcome, root: string,
                                 first: Option<FileField>, second: Option<FileField>)
    requires Process(w, converter, root, first).reply.status == 200
    ensures var w2 := Process(w, converter, root, first).world;
            var x := Process(w2, converter, root, second);
            var accepted := Acceptable(second) && second.value.content.Decoded? &&
                            Canonical(second.value.content.parsed).Ok?;
      && YarrrmlCommand(root) !in x.world.launched[|w2.launched|..]
      && (accepted ==> x.world.launched == w2.launched + [MapperCommand(root)])
      && (!accepted ==> x.world.launched == w2.launched)
      && (accepted ==>
            (x.reply.status == 200 <==> converter(|w2.launched|, MapperCommand(root)).code == 0))
  {
    UploadSuccess(w, converter, root, first);
    var w2 := Process(w, converter, root, first).world;
    UploadOrder(w2, converter, root, second);
    var x := Process(w2, converter, root, second);
    if Acceptable(second) && second.value.content.Decoded? && Canonical(second.value.content.parsed).Ok? {
      var w1 := w2.(dataDir := true);
      var written := w1.(files := w1.files[DataJson := Written(Canonical(second.value.content.parsed).value)]);
      CompileLaunches(written, converter, root);
      MapCases(written, converter, root);
      assert x.world.launched[|w2.launched|..] == [MapperCommand(root)];
      assert YarrrmlCommand(root)[6] != MapperCommand(root)[6];
    } else {
      assert x.world.launched[|w2.launched|..] == [];
    }
  }
}
