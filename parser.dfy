/** ParseFlags of flagutils/parser.go: from the flag values and positional
    arguments to the Options record, with the clean-up of the reject and
    exclude lists. Registering and reading the flags themselves (the flag
    package) is not part of this model: the values it produced are given. */
module Parser {
  import opened GoLib

  /** The options record of models/options.go, with the fields that
      flagutils/parser.go and main.go also use. */
  datatype Options = Options(
    background: bool,
    outputFile: string,
    outputPath: string,
    rateLimit: string,
    inputFile: string,
    mirror: bool,
    url: string,
    isLogging: bool,
    rejectTypes: seq<string>,
    excludePaths: seq<string>,
    convertLinks: bool,
    useDynamic: bool,
    urls: seq<string>)

  /** The flag values after flag.Parse, and the remaining arguments. */
  datatype Flags = Flags(
    background: bool,         // -B
    outputFile: string,       // -O
    outputPath: string,       // -P
    rateLimit: string,        // --rate-limit
    inputFile: string,        // -i
    mirror: bool,             // --mirror
    rejectShort: string,      // -R
    rejectLong: string,       // --reject
    excludeShort: string,     // -X
    excludeLong: string,      // --exclude
    convertLinks: bool,       // --convert-links
    dynamic: bool,            // --dynamic
    args: seq<string>)

  /** The flag defaults: everything off and empty, except --dynamic. */
  function DefaultFlags(args: seq<string>): (f: Flags)
    ensures f.dynamic && !f.background && !f.mirror && !f.convertLinks
    ensures f.outputFile == "" && f.outputPath == "" && f.rateLimit == "" && f.inputFile == ""
    ensures f.rejectShort == "" && f.rejectLong == "" && f.excludeShort == "" && f.excludeLong == ""
    ensures f.args == args
  {
    Flags(false, "", "", "", "", false, "", "", "", "", false, true, args)
  }

  /** What os.Stat says about the input file. */
  datatype Stat = Exists | NotExist | StatFailed

  /** The file-system facts ParseFlags consults: the working directory
      (None when os.Getwd fails) and the input file's status. */
  datatype Env = Env(cwd: Option<string>, inputStat: Stat)

  datatype ParseError = NoURL | InvalidOutputPath | NoCurrentDirectory | InputFileMissing

  /** The long flag wins whenever it is set. */
  function SelectList(short: string, long: string): (list: string)
    ensures long != "" ==> list == long
    ensures long == "" ==> list == short
  {
    if long != "" then long else short
  }

  /** A reject entry: trimmed, then at most one leading dot removed. */
  function CleanRejectType(entry: string): string {
    TrimPrefix(TrimSpace(entry), ".")
  }

  /** An exclude entry: trimmed, then every leading and trailing slash removed. */
  function CleanExcludePath(entry: string): string {
    TrimSlashes(TrimSpace(entry))
  }

  /** RejectTypes as ParseFlags leaves it: unset for an empty list,
      otherwise one cleaned entry per comma-separated field. */
  function RejectTypes(list: string): seq<string> {
    if list == "" then [] else MapEach(Split(list, ','), CleanRejectType)
  }

  function ExcludePaths(list: string): seq<string> {
    if list == "" then [] else MapEach(Split(list, ','), CleanExcludePath)
  }

  /** filepath.Abs: an absolute path is kept, a relative one is put under
      the working directory; without one, Abs fails. */
  function AbsPath(path: string, cwd: Option<string>): Result<string, ParseError> {
    if HasPrefix(path, "/") then Ok(path)
    else if cwd.None? then Err(InvalidOutputPath)
    else Ok(Join(cwd.value, path))
  }

  /** The output directory: -P made absolute, or the working directory. */
  function OutputDirectory(outputPath: string, cwd: Option<string>): Result<string, ParseError> {
    if outputPath != "" then AbsPath(outputPath, cwd)
    else if cwd.None? then Err(NoCurrentDirectory)
    else Ok(cwd.value)
  }

  method ParseFlags(f: Flags, env: Env) returns (r: Result<Options, ParseError>)
    ensures |f.args| == 0 && f.inputFile == "" ==> r == Err(NoURL)
    ensures r.Ok? <==>
      && (|f.args| > 0 || f.inputFile != "")
      && OutputDirectory(f.outputPath, env.cwd).Ok?
      && !(f.inputFile != "" && env.inputStat == NotExist)
    ensures r.Ok? ==>
      var o := r.value;
      && o.url == (if |f.args| > 0 then f.args[0] else "")
      && o.rejectTypes == RejectTypes(SelectList(f.rejectShort, f.rejectLong))
      && o.excludePaths == ExcludePaths(SelectList(f.excludeShort, f.excludeLong))
      && o.outputPath == OutputDirectory(f.outputPath, env.cwd).value
      && o.background == f.background && o.outputFile == f.outputFile
      && o.rateLimit == f.rateLimit && o.inputFile == f.inputFile
      && o.mirror == f.mirror && o.convertLinks == f.convertLinks
      && o.useDynamic == f.dynamic && !o.isLogging && o.urls == []
  {
    if |f.args| < 1 && f.inputFile == "" {
      return Err(NoURL);
    }
    var url := "";
    if |f.args| > 0 {
      url := f.args[0];
    }

    var rejectList := f.rejectShort;
    if f.rejectLong != "" {
      rejectList := f.rejectLong;
    }
    var rejectTypes := CleanRejectList(rejectList);

    var excludeList := f.excludeShort;
    if f.excludeLong != "" {
      excludeList := f.excludeLong;
    }
    var excludePaths := CleanExcludeList(excludeList);

    var outputPath: string;
    if f.outputPath != "" {
      var abs := AbsPath(f.outputPath, env.cwd);
      if abs.Err? {
        return Err(InvalidOutputPath);
      }
      outputPath := abs.value;
    } else {
      if env.cwd.None? {
        return Err(NoCurrentDirectory);
      }
      outputPath := env.cwd.value;
    }

    if f.inputFile != "" && env.inputStat == NotExist {
      return Err(InputFileMissing);
    }

    return Ok(Options(
      f.background, f.outputFile, outputPath, f.rateLimit, f.inputFile, f.mirror,
      url, false, rejectTypes, excludePaths, f.convertLinks, f.dynamic, []));
  }

  /** The reject list is split on commas and each entry cleaned in place. */
  method CleanRejectList(list: string) returns (types: seq<string>)
    ensures types == RejectTypes(list)
  {
    types := [];
    if list != "" {
      var parts := Split(list, ',');
      types := parts;
      for i := 0 to |types|
        invariant |types| == |parts|
        invariant forall j :: 0 <= j < i ==> types[j] == CleanRejectType(parts[j])
        invariant forall j :: i <= j < |parts| ==> types[j] == parts[j]
      {
        types := types[i := TrimSpace(types[i])];
        types := types[i := TrimPrefix(types[i], ".")];
      }
    }
  }

  /** The exclude list is split on commas and each entry cleaned in place. */
  method CleanExcludeList(list: string) returns (paths: seq<string>)
    ensures paths == ExcludePaths(list)
  {
    paths := [];
    if list != "" {
      var parts := Split(list, ',');
      paths := parts;
      for i := 0 to |paths|
        invariant |paths| == |parts|
        invariant forall j :: 0 <= j < i ==> paths[j] == CleanExcludePath(parts[j])
        invariant forall j :: i <= j < |parts| ==> paths[j] == parts[j]
      {
        ghost var before := paths;
        paths := paths[i := TrimSpace(paths[i])];
        paths := paths[i := TrimSlashes(paths[i])];
        assert paths == before[i := CleanExcludePath(parts[i])];
      }
      assert paths == MapEach(parts, CleanExcludePath);
    }
  }

  /** One entry per comma-separated field, none containing a comma. */
  lemma {:induction false} ListShape(list: string, clean: string -> string)
    requires list != ""
    requires forall e :: ',' in clean(e) ==> ',' in e
    ensures var entries := MapEach(Split(list, ','), clean);
      && |entries| == Count(list, ',') + 1
      && forall i :: 0 <= i < |entries| ==> ',' !in entries[i]
  {
    SplitShape(list, ',');
  }

  lemma {:induction false} RejectTypesShape(list: string)
    requires list != ""
    ensures |RejectTypes(list)| == Count(list, ',') + 1
    ensures forall i :: 0 <= i < |RejectTypes(list)| ==> ',' !in RejectTypes(list)[i]
  {
    forall e | ',' in CleanRejectType(e)
      ensures ',' in e
    {
      TrimSpaceInside(e);
    }
    ListShape(list, CleanRejectType);
  }

  lemma {:induction false} ExcludePathsShape(list: string)
    requires list != ""
    ensures |ExcludePaths(list)| == Count(list, ',') + 1
    ensures forall i :: 0 <= i < |ExcludePaths(list)| ==> ',' !in ExcludePaths(list)[i]
    ensures forall i :: 0 <= i < |ExcludePaths(list)| ==>
      var p := ExcludePaths(list)[i]; p == [] || (p[0] != '/' && p[|p| - 1] != '/')
  {
    forall e | ',' in CleanExcludePath(e)
      ensures ',' in e
    {
      CleanExcludeInside(e);
    }
    ListShape(list, CleanExcludePath);
    var parts := Split(list, ',');
    var paths := ExcludePaths(list);
    forall i | 0 <= i < |paths|
      ensures var p := paths[i]; p == [] || (p[0] != '/' && p[|p| - 1] != '/')
    {
      assert paths[i] == CleanExcludePath(parts[i]);
      CleanExcludeEnds(parts[i]);
    }
  }

  /** A cleaned exclude entry holds only runes of the entry. */
  lemma {:induction false} CleanExcludeInside(e: string)
    ensures forall c :: c in CleanExcludePath(e) ==> c in e
  {
    TrimSpaceInside(e);
    var t := TrimSpace(e);
    TrimBothEnds(t, IsSlash);
  }

  /** A cleaned exclude entry neither starts nor ends with a slash. */
  lemma {:induction false} CleanExcludeEnds(e: string)
    ensures var p := CleanExcludePath(e); p == [] || (p[0] != '/' && p[|p| - 1] != '/')
  {
    TrimBothEnds(TrimSpace(e), IsSlash);
  }

  /** Trimming keeps a contiguous piece of the string, so it adds no rune. */
  lemma {:induction false} TrimSpaceInside(s: string)
    ensures forall c :: c in TrimSpace(s) ==> c in s
  {
    TrimBothEnds(s, IsAsciiSpace);
  }

  /** A name with nothing to trim: not empty, no comma, and no white space,
      dot or slash at either end. */
  predicate PlainName(e: string) {
    && e != []
    && ',' !in e
    && !IsAsciiSpace(e[0]) && !IsAsciiSpace(e[|e| - 1])
    && e[0] != '.' && e[0] != '/' && e[|e| - 1] != '/'
  }

  lemma {:induction false} TrimSpacePlain(e: string)
    requires e != [] && !IsAsciiSpace(e[0]) && !IsAsciiSpace(e[|e| - 1])
    ensures TrimSpace(e) == e
  {
  }

  function Dotted(exts: seq<string>): (r: seq<string>)
    ensures |r| == |exts|
    ensures forall i :: 0 <= i < |exts| ==> r[i] == "." + exts[i]
  {
    seq(|exts|, i requires 0 <= i < |exts| => "." + exts[i])
  }

  function Slashed(paths: seq<string>): (r: seq<string>)
    ensures |r| == |paths|
    ensures forall i :: 0 <= i < |paths| ==> r[i] == "/" + paths[i] + "/"
  {
    seq(|paths|, i requires 0 <= i < |paths| => "/" + paths[i] + "/")
  }

  /** Listing extensions comma-separated, with or without their leading
      dots, gives them back. */
  lemma {:induction false} RejectTypesRoundTrip(exts: seq<string>)
    requires |exts| >= 1
    requires forall i :: 0 <= i < |exts| ==> PlainName(exts[i])
    ensures RejectTypes(JoinWith(exts, ',')) == exts
    ensures RejectTypes(JoinWith(Dotted(exts), ',')) == exts
  {
    var dotted := Dotted(exts);
    SplitJoin(exts, ',');
    SplitJoin(dotted, ',');
    forall i | 0 <= i < |exts|
      ensures CleanRejectType(exts[i]) == exts[i]
      ensures CleanRejectType(dotted[i]) == exts[i]
    {
      TrimSpacePlain(exts[i]);
      TrimSpacePlain(dotted[i]);
      assert (dotted[i])[1..] == exts[i];
    }
    NonEmptyJoin(exts);
    NonEmptyJoin(dotted);
  }

  /** Listing directories comma-separated, each wrapped in slashes, gives
      them back without the slashes. */
  lemma {:induction false} ExcludePathsRoundTrip(paths: seq<string>)
    requires |paths| >= 1
    requires forall i :: 0 <= i < |paths| ==> PlainName(paths[i])
    ensures ExcludePaths(JoinWith(paths, ',')) == paths
    ensures ExcludePaths(JoinWith(Slashed(paths), ',')) == paths
  {
    var slashed := Slashed(paths);
    SplitJoin(paths, ',');
    SplitJoin(slashed, ',');
    forall i | 0 <= i < |paths|
      ensures CleanExcludePath(paths[i]) == paths[i]
      ensures CleanExcludePath(slashed[i]) == paths[i]
    {
      assert Repeat('/', 0) == [] && Repeat('/', 1) == "/";
      CleanExcludePathSlashes(paths[i], 0, 0);
      CleanExcludePathSlashes(paths[i], 1, 1);
      assert [] + paths[i] + [] == paths[i];
    }
    NonEmptyJoin(paths);
    NonEmptyJoin(slashed);
  }

  lemma {:induction false} NonEmptyJoin(parts: seq<string>)
    requires |parts| >= 1 && parts[0] != []
    ensures JoinWith(parts, ',') != []
  {
    if |parts| > 1 {
      assert |JoinWith(parts, ',')| >= |parts[0]|;
    }
  }

  /** Only one leading dot is removed: "..jpg" becomes ".jpg". */
  lemma {:induction false} CleanRejectTypeOneDot(e: string)
    requires PlainName(e)
    ensures CleanRejectType(".." + e) == "." + e
    ensures CleanRejectType("." + e) == e
  {
    TrimSpacePlain(".." + e);
    TrimSpacePlain("." + e);
    assert (".." + e)[1..] == "." + e;
    assert ("." + e)[1..] == e;
  }

  /** Every slash at either end is removed, however many there are. */
  lemma {:induction false} CleanExcludePathSlashes(p: string, k: nat, m: nat)
    requires PlainName(p)
    ensures CleanExcludePath(Repeat('/', k) + p + Repeat('/', m)) == p
  {
    var tail := p + Repeat('/', m);
    var w := Repeat('/', k) + tail;
    assert Repeat('/', k) + p + Repeat('/', m) == w;
    assert tail[0] == p[0];
    assert w[0] == (if k > 0 then '/' else p[0]);
    assert w[|w| - 1] == tail[|tail| - 1];
    assert tail[|tail| - 1] == (if m > 0 then '/' else p[|p| - 1]);
    TrimSpacePlain(w);
    TrimLeftSlashes(k, tail);
    TrimRightSlashes(p, m);
  }

  lemma {:induction false} TrimLeftSlashes(k: nat, rest: string)
    requires rest == [] || rest[0] != '/'
    ensures TrimLeftWhile(Repeat('/', k) + rest, IsSlash) == rest
  {
    if k > 0 {
      var w := Repeat('/', k) + rest;
      assert w[1..] == Repeat('/', k - 1) + rest;
      TrimLeftSlashes(k - 1, rest);
    } else {
      assert Repeat('/', k) + rest == rest;
    }
  }

  lemma {:induction false} TrimRightSlashes(rest: string, m: nat)
    requires rest == [] || rest[|rest| - 1] != '/'
    ensures TrimRightWhile(rest + Repeat('/', m), IsSlash) == rest
  {
    if m > 0 {
      var w := rest + Repeat('/', m);
      assert w[..|w| - 1] == rest + Repeat('/', m - 1);
      TrimRightSlashes(rest, m - 1);
    } else {
      assert rest + Repeat('/', m) == rest;
    }
  }
}
