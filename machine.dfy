/**
 * The machine the upload pipeline runs on: the data directory with the four artifacts of
 * the pipeline, and the container runtime the pipeline launches its converters in.
 *
 * A converter run is given, not simulated: `converter(n, cmd)` is what the n-th launch,
 * of the command line `cmd`, does (its exit code, its two output streams and the files it
 * leaves in the data directory, which it leaves whether or not it succeeds).
 */
module Machine {
  import opened Json

  /** The artifacts in the data directory. */
  datatype FileName = DataJson | RulesYml | RulesRmlTtl | OutputTtl

  /** What a file holds: `data.json` holds what the rules canonicalisation wrote (the JSON
      text of a payload, kept here as the payload); the other files hold text. */
  datatype Content = Written(doc: Json) | Generated(text: string)

  /** A command line, as the list of arguments handed to `subprocess.run`. */
  type Command = seq<string>

  /** What a launched command did. */
  datatype RunOutcome = RunOutcome(code: int, stdout: string, stderr: string, creates: map<FileName, Content>)

  /** Everything of the machine the pipeline can observe: whether the data directory exists,
      the files in it and the commands launched so far. */
  datatype World = World(dataDir: bool, files: map<FileName, Content>, launched: seq<Command>)

  /** The machine after launching `cmd`, which did `o`. */
  function AfterRun(w: World, cmd: Command, o: RunOutcome): World
  {
    World(w.dataDir, w.files + o.creates, w.launched + [cmd])
  }

  class Host {
    var dataDir: bool
    var files: map<FileName, Content>
    var launched: seq<Command>
    /** `DATA_DIR`, the absolute path of the data directory. */
    const root: string
    const converter: (nat, Command) -> RunOutcome

    function State(): World
      reads this
    {
      World(dataDir, files, launched)
    }

    /** The machine at server start-up, which creates the data directory; the files already
        there (`rules.yml`, say, or what an earlier run left) are kept. */
    constructor (root: string, converter: (nat, Command) -> RunOutcome, files: map<FileName, Content>)
      ensures State() == World(true, files, [])
      ensures this.root == root && this.converter == converter
    {
      this.root := root;
      this.converter := converter;
      this.dataDir := true;
      this.files := files;
      this.launched := [];
    }

    /** `mkdir(parents=True, exist_ok=True)` on the data directory. */
    method MakeDataDir()
      modifies this
      ensures State() == old(State()).(dataDir := true)
    {
      dataDir := true;
    }

    /** `write_text` into the data directory, replacing what the file held. */
    method Write(name: FileName, content: Content)
      modifies this
      ensures State() == old(State()).(files := old(files)[name := content])
    {
      files := files[name := content];
    }

    /** `subprocess.run(cmd)`: the next launch, with the files it leaves. */
    method Launch(cmd: Command) returns (o: RunOutcome)
      modifies this
      ensures o == converter(|old(launched)|, cmd)
      ensures State() == AfterRun(old(State()), cmd, o)
    {
      o := converter(|launched|, cmd);
      files := files + o.creates;
      launched := launched + [cmd];
    }
  }
}
