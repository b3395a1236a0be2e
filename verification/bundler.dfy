/**
 The two bundler tasks (gulpfile.js:86-113): what `parcelServe` and
 `parcelBuild` decide before they hand over to a child process. The port
 scanner, `spawn` and the child's lifetime are outside the model: the
 scanner's `(error, port)` callback arguments are inputs, and the launch is described by the program name and the argument
 vector passed to `spawn`.
 */
module Bundler {
  import opened Optional

  /** The port the development server should get; any other port is reported. */
  const PreferredPort: int := 9000
  /** The entry file handed to the bundler in both modes. */
  const ParcelTarget: string := "./app/index.html"
  /** The text of the warning printed when the preferred port is taken. */
  const BusyWarning: string := "  Port 9000 is busy."

  /** What the scanner passes as `port`: a number, or `undefined` when the scanner passes no port. */
  datatype PortValue = Port(number: int) | Undefined

  /** The scanner's callback arguments. */
  datatype ScanResult = ScanResult(error: Option<string>, port: PortValue)

  /** One element of the argument vector: a string, or the port value exactly
      as the scanner returned it (the source puts the number itself in the array). */
  datatype Token = Word(text: string) | PortToken(port: PortValue)

  /** What `parcelServe` does once the scanner answers: the warning it logs,
      the program and arguments it spawns, and the error it completes with. */
  datatype ServeLaunch = ServeLaunch(
    warning: Option<string>,
    program: string,
    argv: seq<Token>,
    completion: Option<string>)

  /** What `parcelBuild` spawns. */
  datatype BuildLaunch = BuildLaunch(program: string, argv: seq<Token>)

  /** The options a command line carries after script, mode and entry file. */
  datatype Options = Options(config: Option<string>, port: Option<Token>, open: bool)

  /** A command line read back: the script, the mode, the entry and the options. */
  datatype Command = Command(script: string, mode: string, entry: string, options: Options)

  const NoOptions: Options := Options(None, None, false)

  /** Reads the options `--config <path>`, `--port <value>` and `--open`, left
      to right (a later occurrence wins); anything else is rejected. This is the
      reading the bundler's command line is meant to have, and is what the
      argument vectors below are checked against. */
  function ReadOptions(tokens: seq<Token>, acc: Options): Option<Options>
    decreases |tokens|
  {
    if |tokens| == 0 then Some(acc)
    else if tokens[0] == Word("--open") then ReadOptions(tokens[1..], acc.(open := true))
    else if tokens[0] == Word("--config") && |tokens| >= 2 && tokens[1].Word? then
      ReadOptions(tokens[2..], acc.(config := Some(tokens[1].text)))
    else if tokens[0] == Word("--port") && |tokens| >= 2 then
      ReadOptions(tokens[2..], acc.(port := Some(tokens[1])))
    else None
  }

  /** Reads a whole argument vector: three words, then options. */
  function ReadCommand(argv: seq<Token>): Option<Command> {
    if |argv| >= 3 && argv[0].Word? && argv[1].Word? && argv[2].Word? then
      match ReadOptions(argv[3..], NoOptions)
      case Some(opts) => Some(Command(argv[0].text, argv[1].text, argv[2].text, opts))
      case None => None
    else None
  }

  /** The serve options, read one at a time. */
  lemma ReadServeOptions(config: string, port: PortValue)
    ensures ReadOptions([Word("--config"), Word(config), Word("--port"), PortToken(port), Word("--open")], NoOptions)
            == Some(Options(Some(config), Some(PortToken(port)), true))
  {
    var tokens := [Word("--config"), Word(config), Word("--port"), PortToken(port), Word("--open")];
    var afterConfig := NoOptions.(config := Some(config));
    var afterPort := afterConfig.(port := Some(PortToken(port)));
    assert tokens[2..] == [Word("--port"), PortToken(port), Word("--open")];
    assert tokens[2..][2..] == [Word("--open")];
    assert ReadOptions(tokens[2..][2..], afterPort) == ReadOptions([], afterPort.(open := true));
  }

  /** The arguments `parcelServe` spawns `node` with (gulpfile.js:94, 98). */
  function ServeArgs(cli: string, config: string, port: PortValue): (argv: seq<Token>)
    ensures ReadCommand(argv)
            == Some(Command(cli, "serve", ParcelTarget, Options(Some(config), Some(PortToken(port)), true)))
  {
    var argv := [Word(cli), Word("serve"), Word(ParcelTarget),
                 Word("--config"), Word(config), Word("--port"), PortToken(port), Word("--open")];
    ReadServeOptions(config, port);
    assert argv[3..] == [Word("--config"), Word(config), Word("--port"), PortToken(port), Word("--open")];
    argv
  }

  /** The arguments `parcelBuild` spawns `node` with (gulpfile.js:108-109). */
  function BuildArgs(cli: string, config: string): (argv: seq<Token>)
    ensures |argv| == 5
    ensures ReadCommand(argv) == Some(Command(cli, "build", ParcelTarget, Options(Some(config), None, false)))
  {
    var argv := [Word(cli), Word("build"), Word(ParcelTarget), Word("--config"), Word(config)];
    assert argv[3..] == [Word("--config"), Word(config)];
    assert argv[3..][2..] == [];
    assert ReadOptions(argv[3..][2..], NoOptions.(config := Some(config))) == Some(Options(Some(config), None, false));
    argv
  }

  /** Once `--open` or `--port` has been read, no later option undoes it. */
  lemma {:induction false} ReadOptionsKeeps(tokens: seq<Token>, acc: Options)
    ensures ReadOptions(tokens, acc).Some? && acc.open ==> ReadOptions(tokens, acc).value.open
    ensures ReadOptions(tokens, acc).Some? && acc.port.Some? ==> ReadOptions(tokens, acc).value.port.Some?
    decreases |tokens|
  {
    if |tokens| == 0 {
    } else if tokens[0] == Word("--open") {
      ReadOptionsKeeps(tokens[1..], acc.(open := true));
    } else if tokens[0] == Word("--config") && |tokens| >= 2 && tokens[1].Word? {
      ReadOptionsKeeps(tokens[2..], acc.(config := Some(tokens[1].text)));
    } else if tokens[0] == Word("--port") && |tokens| >= 2 {
      ReadOptionsKeeps(tokens[2..], acc.(port := Some(tokens[1])));
    }
  }

  /** The build vector is the shortest one that reads back as the build
      command: any five-token vector with that reading is exactly it. */
  lemma BuildArgsExact(cli: string, config: string, argv: seq<Token>)
    requires |argv| == 5
    requires ReadCommand(argv) == Some(Command(cli, "build", ParcelTarget, Options(Some(config), None, false)))
    ensures argv == BuildArgs(cli, config)
  {
    var opts := argv[3..];
    var want := Options(Some(config), None, false);
    assert ReadOptions(opts, NoOptions) == Some(want);
    if opts[0] == Word("--open") {
      ReadOptionsKeeps(opts[1..], NoOptions.(open := true));
    } else if opts[0] == Word("--config") && opts[1].Word? {
      var acc := NoOptions.(config := Some(opts[1].text));
      assert opts[2..] == [];
      assert ReadOptions(opts[2..], acc) == Some(acc);
      assert opts[1] == Word(config);
    } else if opts[0] == Word("--port") {
      ReadOptionsKeeps(opts[2..], NoOptions.(port := Some(opts[1])));
    }
    assert argv[0] == Word(cli) && argv[1] == Word("build") && argv[2] == Word(ParcelTarget);
    assert argv == argv[..3] + opts;
  }

  /** `parcelServe` after the scanner answers: it warns exactly when the port
      is not 9000 (an `undefined` port included), spawns the bundler even when
      the scan failed, and completes with the scanner's error. */
  function Serve(cli: string, config: string, scan: ScanResult): (l: ServeLaunch)
    ensures l.warning.Some? <==> scan.port != Port(PreferredPort)
    ensures l.warning.Some? ==> l.warning.value == BusyWarning
    ensures l.program == "node"
    ensures l.argv == ServeArgs(cli, config, scan.port)
    ensures ReadCommand(l.argv)
            == Some(Command(cli, "serve", ParcelTarget, Options(Some(config), Some(PortToken(scan.port)), true)))
    ensures l.completion == scan.error
  {
    ServeLaunch(
      if scan.port != Port(PreferredPort) then Some(BusyWarning) else None,
      "node",
      ServeArgs(cli, config, scan.port),
      scan.error)
  }

  /** `parcelBuild`: spawns the production build, with no port and no browser. */
  function Build(cli: string, config: string): (l: BuildLaunch)
    ensures l.program == "node"
    ensures l.argv == BuildArgs(cli, config) && |l.argv| == 5
    ensures ReadCommand(l.argv) == Some(Command(cli, "build", ParcelTarget, Options(Some(config), None, false)))
  {
    BuildLaunch("node", BuildArgs(cli, config))
  }

  /** The serve vector is the build vector with the mode changed to `serve`
      and `--port <port> --open` appended. */
  lemma ServeExtendsBuild(cli: string, config: string, port: PortValue)
    ensures ServeArgs(cli, config, port)
            == BuildArgs(cli, config)[1 := Word("serve")] + [Word("--port"), PortToken(port), Word("--open")]
  {
  }

  /** Only the serve vector carries the port, and it carries it once. */
  lemma OnlyServeCarriesPort(cli: string, config: string, port: PortValue)
    ensures forall k :: 0 <= k < |ServeArgs(cli, config, port)| ==>
              (ServeArgs(cli, config, port)[k].PortToken? <==> k == 6)
    ensures forall t :: t in BuildArgs(cli, config) ==> !t.PortToken?
  {
  }

  /** When the scanner answers port 9003 the busy warning is logged and
      `--port 9003` is passed. */
  lemma BusyPreferredPort()
    ensures var l := Serve("cli.js", ".parcelrc", ScanResult(None, Port(9003)));
            l.warning == Some(BusyWarning) && l.argv[6] == PortToken(Port(9003)) && l.completion == None
  {
  }

  /** A failed scan that passes no port still spawns the bundler, with the
      warning, and reports the error. */
  lemma FailedScanStillSpawns(cli: string, config: string, error: string)
    ensures var l := Serve(cli, config, ScanResult(Some(error), Undefined));
            l.warning.Some? && l.program == "node" && l.completion == Some(error)
  {
  }

  /** A failed scan whose callback still reports port 9000 spawns the bundler
      on 9000 without the warning, and reports the error. */
  lemma FailedScanAtPreferredPort(cli: string, config: string, error: string)
    ensures var l := Serve(cli, config, ScanResult(Some(error), Port(PreferredPort)));
            l.warning.None? && l.argv[6] == PortToken(Port(PreferredPort)) && l.completion == Some(error)
  {
  }
}
