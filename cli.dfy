/** The command-line driver of main.go: expanding "~/", choosing the output
    directory and file name, and the four modes (background, input file,
    mirror and direct download). The environment main consults is an input:
    the home directory, whether the log file and the downloads directory
    can be created, the input file, and what the network does with each
    URL. */
module Cli {
  import opened GoLib
  import Parser
  import Handlers
  import Downloader
  import Concurrent

  datatype CliError =
    | NeedOneURL
    | LogFileFailed
    | InputOpenFailed
    | HomeUnknown
    | DirectoryFailed
    | ScanFailed
    | InvalidURL
    | DownloadFailed(cause: Downloader.DownloadError)

  // ---------------------------------------------------------------- paths

  /** expandPath: "~/" at the start stands for the home directory (None
      when os.UserHomeDir fails); any other path is kept. */
  function ExpandPath(path: string, home: Option<string>): (r: Result<string, CliError>)
    ensures !HasPrefix(path, "~/") ==> r == Ok(path)
    ensures HasPrefix(path, "~/") ==> (r.Ok? <==> home.Some?)
    ensures r.Err? ==> r.error == HomeUnknown
  {
    if HasPrefix(path, "~/") then
      if home.None? then Err(HomeUnknown) else Ok(Join(home.value, path[2..]))
    else Ok(path)
  }

  /** The rest of a "~/" path ends up under the home directory. */
  lemma {:induction false} ExpandPathHome(home: string, rest: string)
    requires home != []
    ensures ExpandPath("~/" + rest, Some(home)) == Ok(home + "/" + rest)
  {
    var p := "~/" + rest;
    assert p[..2] == "~/" && p[2..] == rest;
  }

  /** Expanding is idempotent when the home directory does not itself
      start with '~' (an absolute home directory, say). */
  lemma {:induction false} ExpandPathIdempotent(path: string, home: Option<string>)
    requires home.Some? ==> home.value != [] && home.value[0] != '~'
    ensures ExpandPath(path, home).Ok? ==>
      ExpandPath(ExpandPath(path, home).value, home) == ExpandPath(path, home)
  {
    var r := ExpandPath(path, home);
    if r.Ok? && HasPrefix(path, "~/") {
      var e := r.value;
      assert e == home.value + "/" + path[2..];
      assert e[0] == home.value[0];
      assert !HasPrefix(e, "~/");
    }
  }

  /** The directory a mode writes to: the expanded -P, or the mode's
      default when -P is empty. */
  function ModeDirectory(outputPath: string, default: string, home: Option<string>): (r: Result<string, CliError>)
    ensures outputPath == "" ==> r == Ok(default)
    ensures outputPath != "" ==> r == ExpandPath(outputPath, home)
  {
    if outputPath != "" then ExpandPath(outputPath, home) else Ok(default)
  }

  // ----------------------------------------------------------- file names

  /** The file name of a direct download: the base of -O as it is, or the
      name derived from the URL path (None when the URL does not parse). */
  function DirectFileName(outputFile: string, urlPath: Option<string>): (r: Result<string, CliError>)
    ensures outputFile != "" ==> r == Ok(Base(outputFile))
    ensures outputFile == "" ==> (r.Ok? <==> urlPath.Some?)
    ensures outputFile == "" && r.Ok? ==>
      r.value != [] && forall i :: 0 <= i < |r.value| ==> r.value[i] !in Concurrent.Forbidden
  {
    if outputFile != "" then Ok(Base(outputFile))
    else if urlPath.None? then Err(InvalidURL)
    else
      Concurrent.FileNameSafe(urlPath.value);
      Ok(Concurrent.FileNameFromPath(urlPath.value))
  }

  /** -O is not sanitised: a forbidden rune in its base name survives,
      where the same name taken from a URL path is cleaned. */
  lemma {:induction false} OutputFileNotSanitised(dir: string, name: string)
    requires name != [] && '/' !in name && ':' in name
    ensures DirectFileName(Join(dir, name), None) == Ok(name)
    ensures DirectFileName("", Some(Join(dir, name))) != Ok(name)
  {
    BaseJoin(dir, name);
    var i :| 0 <= i < |name| && name[i] == ':';
    Concurrent.FileNameSafe(Join(dir, name));
    assert Concurrent.FileNameFromPath(Join(dir, name))[i] != ':';
  }

  /** The file name in background mode: the base of the whole URL, with
      "index.html" for "", "." and "/", and no cleaning. */
  function BackgroundFileName(url: string): (name: string)
    ensures name != [] && '/' !in name
    ensures Base(url) !in {"", ".", "/"} ==> name == Base(url)
  {
    var base := Base(url);
    if base == "" || base == "." || base == "/" then "index.html" else base
  }

  // ---------------------------------------------------------- input file

  /** The scanner loop of the input-file mode: the trimmed lines that are
      neither empty nor comments, in order. */
  method CollectURLs(lines: seq<string>) returns (urls: seq<string>)
    ensures urls == Handlers.URLLines(lines)
  {
    urls := [];
    for i := 0 to |lines|
      invariant urls == Handlers.URLLines(lines[..i])
    {
      var url := TrimSpace(lines[i]);
      if url != "" && !HasPrefix(url, "#") {
        urls := urls + [url];
      }
      Handlers.URLLinesStep(lines, i);
    }
    assert lines[..|lines|] == lines;
  }

  /** The summary count: how many results report success. */
  method CountSuccesses(results: seq<Concurrent.DownloadResult>) returns (count: nat)
    ensures count == Concurrent.Successes(results)
    ensures count <= |results|
  {
    count := 0;
    for i := 0 to |results|
      invariant count == Concurrent.Successes(results[..i])
    {
      assert results[..i + 1][..i] == results[..i];
      if results[i].success {
        count := count + 1;
      }
    }
    assert results[..|results|] == results;
  }

  // ---------------------------------------------------------------- modes

  /** What main consults besides the options. */
  datatype Machine = Machine(
    home: Option<string>,
    logFileOk: bool,
    input: Handlers.InputFile,
    mkdirOk: bool,
    network: string -> Concurrent.Attempt)

  /** How a run ends. */
  datatype Outcome =
    | Failed(reason: CliError)                   // os.Exit(1) after a message
    | Crashed                                    // options.URLs[0] on an empty list
    | BackgroundDone(url: string, fileName: string, logged: Option<Downloader.DownloadError>)
    | BatchDone(results: seq<Concurrent.DownloadResult>, successCount: nat, total: nat)
    | MirrorRequested(url: string, outputDir: string)
    | Saved(url: string, outputPath: string)

  /** The concurrency main gives the multi-URL downloader. */
  const Workers: int := 5

  /** main after ParseFlags: the first mode that applies runs. */
  method Run(opts: Parser.Options, m: Machine) returns (outcome: Outcome)
    // background mode
    ensures opts.background && |opts.urls| != 1 ==> outcome == Failed(NeedOneURL)
    ensures opts.background && |opts.urls| == 1 && !m.logFileOk ==> outcome == Failed(LogFileFailed)
    ensures opts.background && |opts.urls| == 1 && m.logFileOk ==>
      && outcome.BackgroundDone?
      && outcome.url == opts.urls[0] && outcome.fileName == BackgroundFileName(opts.urls[0])
      && (outcome.logged.None? <==> Downloader.Succeeds(opts.rateLimit, m.network(opts.urls[0]).world))
    // input-file mode
    ensures !opts.background && opts.inputFile != "" ==>
      if m.input.Unopenable? then outcome == Failed(InputOpenFailed)
      else if ModeDirectory(opts.outputPath, "downloads", m.home).Err? then outcome == Failed(HomeUnknown)
      else if !m.mkdirOk then outcome == Failed(DirectoryFailed)
      else if m.input.scanFailed then outcome == Failed(ScanFailed)
      else
        var urls := Handlers.URLLines(m.input.lines);
        && outcome.BatchDone?
        && outcome.total == |urls| == |outcome.results|
        && outcome.successCount == Concurrent.Successes(outcome.results) <= outcome.total
        && forall i :: 0 <= i < |urls| ==>
             Concurrent.Reports(
               Concurrent.Settings(Workers, ModeDirectory(opts.outputPath, "downloads", m.home).value, opts.rateLimit),
               urls[i], m.network(urls[i]), outcome.results[i])
    // mirror mode
    ensures !opts.background && opts.inputFile == "" && opts.mirror ==>
      if |opts.urls| != 1 then outcome == Failed(NeedOneURL)
      else if ModeDirectory(opts.outputPath, "mirrors", m.home).Err? then outcome == Failed(HomeUnknown)
      else outcome == MirrorRequested(opts.urls[0], ModeDirectory(opts.outputPath, "mirrors", m.home).value)
    // direct download
    ensures !opts.background && opts.inputFile == "" && !opts.mirror ==>
      if ModeDirectory(opts.outputPath, ".", m.home).Err? then outcome == Failed(HomeUnknown)
      else if opts.urls == [] then outcome == Crashed
      else
        var url := opts.urls[0];
        var name := DirectFileName(opts.outputFile, m.network(url).path);
        if name.Err? then outcome == Failed(InvalidURL)
        else if Downloader.Succeeds(opts.rateLimit, m.network(url).world) then
          outcome == Saved(url, Join(ModeDirectory(opts.outputPath, ".", m.home).value, name.value))
        else outcome.Failed? && outcome.reason.DownloadFailed?
  {
    if opts.background {
      if |opts.urls| != 1 {
        return Failed(NeedOneURL);
      }
      if !m.logFileOk {
        return Failed(LogFileFailed);
      }
      var url := opts.urls[0];
      var fileName := BackgroundFileName(url);
      var steps, err := Downloader.DownloadFileBackground(fileName, opts.rateLimit, m.network(url).world);
      return BackgroundDone(url, fileName, err);
    }

    if opts.inputFile != "" {
      if m.input.Unopenable? {
        return Failed(InputOpenFailed);
      }
      var downloadsDir := ModeDirectory(opts.outputPath, "downloads", m.home);
      if downloadsDir.Err? {
        return Failed(downloadsDir.error);
      }
      if !m.mkdirOk {
        return Failed(DirectoryFailed);
      }
      var d := Concurrent.NewConcurrentDownloader(Workers, downloadsDir.value, opts.rateLimit);
      var urls := CollectURLs(m.input.lines);
      if m.input.scanFailed {
        return Failed(ScanFailed);
      }
      var attempts := seq(|urls|, i requires 0 <= i < |urls| => m.network(urls[i]));
      var sizes, results, successfulURLs := Concurrent.DownloadURLs(d, urls, attempts);
      var successCount := CountSuccesses(results);
      return BatchDone(results, successCount, |urls|);
    }

    if opts.mirror {
      if |opts.urls| != 1 {
        return Failed(NeedOneURL);
      }
      var outputDir := ModeDirectory(opts.outputPath, "mirrors", m.home);
      if outputDir.Err? {
        return Failed(outputDir.error);
      }
      return MirrorRequested(opts.urls[0], outputDir.value);
    }

    var outputDir := ModeDirectory(opts.outputPath, ".", m.home);
    if outputDir.Err? {
      return Failed(outputDir.error);
    }
    if opts.urls == [] {
      return Crashed;
    }
    var url := opts.urls[0];
    var fileName := DirectFileName(opts.outputFile, m.network(url).path);
    if fileName.Err? {
      return Failed(fileName.error);
    }
    var outputPath := Join(outputDir.value, fileName.value);
    var steps, err := Downloader.DownloadFile(outputPath, opts.rateLimit, m.network(url).world);
    if err.Some? {
      return Failed(DownloadFailed(err.value));
    }
    return Saved(url, outputPath);
  }
}
