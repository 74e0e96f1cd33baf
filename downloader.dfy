/** The single-file downloader of downloadutils/downloader.go: the lenient
    rate-limit parser and the decisions downloadFileWithProgress takes. The
    HTTP request, the file system and the copy itself are not modelled;
    their outcomes are given as a `World`. */
module Downloader {
  import opened GoLib
  import Handlers

  // --------------------------------------------------------- rate limits

  /** The unit a final rune of the lower-cased string selects: k, m or g. */
  function LowerUnit(c: char): Unit {
    if c == 'k' then Kibi
    else if c == 'm' then Mebi
    else if c == 'g' then Gibi
    else Bytes
  }

  /** parseRateLimit: "" means no limit; otherwise the string is
      lower-cased, a final k, m or g selects the multiplier and is removed,
      and the rest must be an int64 in decimal. The product is an int64
      multiplication, which wraps around. */
  function ParseRateLimit(rate: string): (r: IntAndError<NumError>)
    ensures rate == "" ==> r == IntAndError(0, None)
    ensures r.err.Some? ==> r.value == 0
    ensures InInt64(r.value)
  {
    if rate == "" then IntAndError(0, None)
    else
      var lower := ToLower(rate);
      var u := LowerUnit(lower[|lower| - 1]);
      var number := if u == Bytes then lower else lower[..|lower| - 1];
      match ParseInt(number)
      case Err(e) => IntAndError(0, Some(e))
      case Ok(value) => IntAndError(Wrap64(Scaled(value, u)), None)
  }

  /** A string with no capital letter is its own lower case. */
  lemma {:induction false} ToLowerUnchanged(s: string)
    requires forall i :: 0 <= i < |s| ==> LowerRune(s[i]) == s[i]
    ensures ToLower(s) == s
  {
  }

  /** Every int64 printed in decimal is read back as itself: the lenient
      parser accepts zero and negative numbers. */
  lemma {:induction false} ParseRateLimitFormatInt(v: int)
    requires InInt64(v)
    ensures ParseRateLimit(FormatInt(v)) == IntAndError(v, None)
  {
    var s := FormatInt(v);
    var d := if v < 0 then Itoa(0 - v) else Itoa(v);
    LowerSignedDigits(d, v < 0);
    assert ToLower(s) == s;
    assert s[|s| - 1] == d[|d| - 1];
    assert LowerUnit(s[|s| - 1]) == Bytes;
    ParseIntFormatInt(v);
    assert Wrap64(Scaled(v, Bytes)) == v;
  }

  /** Digits, with or without a leading minus sign, have no capital letter. */
  lemma {:induction false} LowerSignedDigits(d: string, negative: bool)
    requires AllDigits(d)
    ensures var s := if negative then "-" + d else d; ToLower(s) == s
  {
    var s := if negative then "-" + d else d;
    forall i | 0 <= i < |s|
      ensures LowerRune(s[i]) == s[i]
    {
      if negative && i > 0 {
        assert s[i] == d[i - 1];
      } else if !negative {
        assert s[i] == d[i];
      }
    }
    ToLowerUnchanged(s);
  }

  /** A positive number followed by one unit letter, in either case, is the
      number times 1024, 1024^2 or 1024^3. */
  lemma {:induction false} ParseRateLimitItoaUnit(n: nat, c: char)
    requires LowerUnit(LowerRune(c)) != Bytes
    requires Scaled(n, LowerUnit(LowerRune(c))) <= Int64Max
    ensures ParseRateLimit(Itoa(n) + [c]) == IntAndError(Scaled(n, LowerUnit(LowerRune(c))), None)
  {
    var u := LowerUnit(LowerRune(c));
    var lower := Itoa(n) + [LowerRune(c)];
    LowerDigitsThen(n, c);
    assert lower[..|lower| - 1] == Itoa(n);
    ParseIntItoa(n);
  }

  /** Lower-casing digits and one more rune only lowers that rune. */
  lemma {:induction false} LowerDigitsThen(n: nat, c: char)
    ensures ToLower(Itoa(n) + [c]) == Itoa(n) + [LowerRune(c)]
  {
    var s := Itoa(n) + [c];
    forall i | 0 <= i < |s| - 1
      ensures ToLower(s)[i] == s[i]
    {
      assert s[i] == Itoa(n)[i];
    }
  }

  /** The decimal text of an int64 number parses back to it. */
  lemma {:induction false} ParseIntItoa(n: nat)
    requires n <= Int64Max
    ensures ParseInt(Itoa(n)) == Ok(n)
  {
    DigitsValueItoa(n);
    ParseIntDigits(Itoa(n));
  }

  /** A unit letter with no number before it is a syntax error. */
  lemma {:induction false} ParseRateLimitBareUnit(c: char)
    requires LowerUnit(LowerRune(c)) != Bytes
    ensures ParseRateLimit([c]) == IntAndError(0, Some(ErrSyntax))
  {
    assert ToLower([c])[..0] == [];
  }

  /** A string whose last rune is neither a digit nor a unit letter is
      rejected. The error is the one strconv meets first: a range error when
      the digits after the optional sign already pass 2^64 - 1, a syntax
      error otherwise. */
  lemma {:induction false} ParseRateLimitBadLast(s: string)
    requires s != []
    requires !IsDigit(s[|s| - 1]) && LowerUnit(LowerRune(s[|s| - 1])) == Bytes
    ensures var run := LeadingDigits(Unsigned(ToLower(s)));
      ParseRateLimit(s) ==
        IntAndError(0, Some(if DigitsValue(run) > Uint64Max then ErrRange else ErrSyntax))
  {
    var lower := ToLower(s);
    assert lower[|lower| - 1] == LowerRune(s[|s| - 1]);
    assert !IsDigit(lower[|lower| - 1]);
    var digits := Unsigned(lower);
    var run := LeadingDigits(digits);
    if digits != [] {
      assert !IsDigit(digits[|digits| - 1]) by {
        assert digits[|digits| - 1] == lower[|lower| - 1];
      }
      assert |run| < |digits|;
    }
    ParseIntReads(lower);
    assert ParseInt(lower) == Err(if DigitsValue(run) > Uint64Max then ErrRange else ErrSyntax);
  }

  /** A number past 2^64 - 1 followed by a stray rune is a range error, not
      a syntax error: strconv gives up on the number before it reaches the
      rune. */
  lemma {:induction false} ParseRateLimitOverflowBeforeRune(n: nat)
    requires n > Uint64Max
    ensures ParseRateLimit(Itoa(n) + "x") == IntAndError(0, Some(ErrRange))
  {
    var s := Itoa(n) + "x";
    LowerDigitsThen(n, 'x');
    assert ToLower(s) == s;
    assert IsDigit(s[0]) && Unsigned(s) == s;
    assert s == Itoa(n) + ['x'] + [];
    LeadingDigitsOf(Itoa(n), 'x', []);
    DigitsValueItoa(n);
    ParseRateLimitBadLast(s);
  }

  /** The cases of the source's own test table. */
  lemma {:induction false} ParseRateLimitExamples()
    ensures ParseRateLimit("100k") == IntAndError(102400, None)
    ensures ParseRateLimit("1M") == IntAndError(1048576, None)
    ensures ParseRateLimit("abc") == IntAndError(0, Some(ErrSyntax))
  {
    assert Itoa(100) + ['k'] == "100k" && Itoa(1) + ['M'] == "1M";
    ParseRateLimitItoaUnit(100, 'k');
    ParseRateLimitItoaUnit(1, 'M');
    ParseRateLimitBadLast("abc");
  }

  /** On the strings the strict parser of flagutils accepts, the lenient
      parser agrees with it. */
  lemma {:induction false} ParseRateLimitAgrees(s: string)
    requires Handlers.ParseRateLimit(s).err.None?
    ensures ParseRateLimit(s) == IntAndError(Handlers.ParseRateLimit(s).value, None)
  {
    Handlers.ParseRateLimitMeaning(s);
    Handlers.LowerDigits(s);
    var lower := ToLower(s);
    var last := s[|s| - 1];
    var digits := Handlers.RateDigits(s);
    var n := DigitsValue(digits);
    var u := Handlers.UnitOf(last);
    assert LowerUnit(lower[|lower| - 1]) == u;
    var number := if u == Bytes then lower else lower[..|lower| - 1];
    assert number == digits by {
      if u == Bytes {
        assert lower == lower[..|s| - 1] + [lower[|s| - 1]];
        assert s == s[..|s| - 1] + [last];
      }
    }
    ParseIntDigits(digits);
    assert ParseInt(number) == Ok(n);
    assert Wrap64(Scaled(n, u)) == Scaled(n, u);
  }

  // ------------------------------------------------------------- download

  /** What the server answers: the status code and the Content-Length. */
  datatype Response = Response(status: int, contentLength: int)

  /** The outcome of every outside action downloadFileWithProgress takes:
      the GET request (None when it fails), creating the directory, creating
      the file and copying the body. */
  datatype World = World(response: Option<Response>, mkdirOk: bool, createOk: bool, copyOk: bool)

  /** The actions taken, in order. */
  datatype Step =
    | MakeParentDirectory
    | CreateFile(path: string)
    | LimitRate(bytesPerSecond: int)
    | TrackProgress(total: int)
    | CopyBody

  datatype DownloadError =
    | RequestFailed
    | BadStatus(status: int)
    | DirectoryFailed
    | CreateFailed
    | RateLimitInvalid(cause: NumError)
    | SaveFailed

  const StatusOK: int := 200

  /** Whether a rate-limit string puts a limiter around the body, and at
      what rate: only a non-empty string that parses to a positive rate. */
  function Limiter(rateLimit: string): (r: Option<int>)
    ensures r.Some? <==> rateLimit != "" && ParseRateLimit(rateLimit).err.None? && ParseRateLimit(rateLimit).value > 0
    ensures r.Some? ==> r.value == ParseRateLimit(rateLimit).value
  {
    if rateLimit == "" then None
    else
      var parsed := ParseRateLimit(rateLimit);
      if parsed.err.None? && parsed.value > 0 then Some(parsed.value) else None
  }

  /** Whether the request got through with status 200. */
  predicate Answered(world: World) {
    world.response.Some? && world.response.value.status == StatusOK
  }

  /** The limiter step, when there is a limit. */
  function LimitSteps(limit: Option<int>): seq<Step> {
    if limit.Some? then [LimitRate(limit.value)] else []
  }

  /** The progress step, when progress is tracked. */
  function TrackSteps(track: Option<int>): seq<Step> {
    if track.Some? then [TrackProgress(track.value)] else []
  }

  /** The steps of a download that reaches the copy. */
  function CopyPlan(outputPath: string, limit: Option<int>, track: Option<int>): seq<Step> {
    [MakeParentDirectory, CreateFile(outputPath)] + LimitSteps(limit) + TrackSteps(track) + [CopyBody]
  }

  /** A download that reaches the copy makes the directory and the file and
      copies, with a limiter exactly at the given limit and a progress
      tracker exactly over the given total. */
  lemma {:induction false} CopyPlanSteps(outputPath: string, limit: Option<int>, track: Option<int>)
    ensures var s := CopyPlan(outputPath, limit, track);
      && MakeParentDirectory in s && CreateFile(outputPath) in s && CopyBody in s
      && (forall b :: LimitRate(b) in s <==> limit == Some(b))
      && (forall t :: TrackProgress(t) in s <==> track == Some(t))
  {
    var s := CopyPlan(outputPath, limit, track);
    assert s[0] == MakeParentDirectory && s[1] == CreateFile(outputPath) && s[|s| - 1] == CopyBody;
  }

  /** downloadFileWithProgress, as the sequence of actions it takes and the
      error it returns. `toStdout` says whether the progress output is the
      standard output, which is when a progress bar is drawn. */
  method DownloadFileWithProgress(outputPath: string, rateLimit: string, showProgress: bool,
                                  toStdout: bool, world: World)
    returns (steps: seq<Step>, err: Option<DownloadError>)
    ensures world.response.None? ==> steps == [] && err == Some(RequestFailed)
    ensures world.response.Some? && world.response.value.status != StatusOK ==>
      steps == [] && err == Some(BadStatus(world.response.value.status))
    ensures Answered(world) && !world.mkdirOk ==>
      steps == [MakeParentDirectory] && err == Some(DirectoryFailed)
    ensures Answered(world) && world.mkdirOk && !world.createOk ==>
      steps == [MakeParentDirectory, CreateFile(outputPath)] && err == Some(CreateFailed)
    ensures Answered(world) && world.mkdirOk && world.createOk
            && rateLimit != "" && ParseRateLimit(rateLimit).err.Some? ==>
      && steps == [MakeParentDirectory, CreateFile(outputPath)]
      && err == Some(RateLimitInvalid(ParseRateLimit(rateLimit).err.value))
    ensures Answered(world) && world.mkdirOk && world.createOk
            && (rateLimit == "" || ParseRateLimit(rateLimit).err.None?) ==>
      && steps == CopyPlan(outputPath, Limiter(rateLimit),
                           if showProgress && toStdout then Some(world.response.value.contentLength) else None)
      && err == (if world.copyOk then None else Some(SaveFailed))
  {
    steps := [];
    if world.response.None? {
      return steps, Some(RequestFailed);
    }
    var resp := world.response.value;
    if resp.status != StatusOK {
      return steps, Some(BadStatus(resp.status));
    }
    var size := resp.contentLength;

    steps := steps + [MakeParentDirectory];
    if !world.mkdirOk {
      return steps, Some(DirectoryFailed);
    }
    steps := steps + [CreateFile(outputPath)];
    if !world.createOk {
      return steps, Some(CreateFailed);
    }

    var limit: Option<int> := None;
    if rateLimit != "" {
      var parsed := ParseRateLimit(rateLimit);
      if parsed.err.Some? {
        return steps, Some(RateLimitInvalid(parsed.err.value));
      }
      if parsed.value > 0 {
        limit := Some(parsed.value);
      }
    }
    if limit.Some? {
      steps := steps + [LimitRate(limit.value)];
    }
    if showProgress && toStdout {
      steps := steps + [TrackProgress(size)];
    }
    steps := steps + [CopyBody];
    if !world.copyOk {
      return steps, Some(SaveFailed);
    }
    return steps, None;
  }

  /** When a download completes without error: the request is answered
      with 200, the directory, the file and the copy all work out, and the
      rate limit is empty or parses. */
  predicate Succeeds(rateLimit: string, world: World) {
    && world.response.Some? && world.response.value.status == StatusOK
    && world.mkdirOk && world.createOk && world.copyOk
    && (rateLimit == "" || ParseRateLimit(rateLimit).err.None?)
  }

  /** DownloadFile: with progress, on the standard output. */
  method DownloadFile(outputPath: string, rateLimit: string, world: World)
    returns (steps: seq<Step>, err: Option<DownloadError>)
    ensures CopyBody in steps ==>
      world.response.Some? && TrackProgress(world.response.value.contentLength) in steps
    ensures err.None? <==> Succeeds(rateLimit, world)
  {
    steps, err := DownloadFileWithProgress(outputPath, rateLimit, true, true, world);
    if world.response.Some? {
      CopyPlanSteps(outputPath, Limiter(rateLimit), Some(world.response.value.contentLength));
    }
  }

  /** DownloadFileSilent: no progress at all. */
  method DownloadFileSilent(outputPath: string, rateLimit: string, world: World)
    returns (steps: seq<Step>, err: Option<DownloadError>)
    ensures forall t :: TrackProgress(t) !in steps
    ensures err.None? <==> Succeeds(rateLimit, world)
  {
    steps, err := DownloadFileWithProgress(outputPath, rateLimit, false, true, world);
    CopyPlanSteps(outputPath, Limiter(rateLimit), None);
  }

  /** DownloadFileBackground: progress messages go to the log file, which
      is not the standard output, so no progress bar is drawn either. */
  method DownloadFileBackground(outputPath: string, rateLimit: string, world: World)
    returns (steps: seq<Step>, err: Option<DownloadError>)
    ensures forall t :: TrackProgress(t) !in steps
    ensures err.None? <==> Succeeds(rateLimit, world)
  {
    steps, err := DownloadFileWithProgress(outputPath, rateLimit, true, false, world);
    CopyPlanSteps(outputPath, Limiter(rateLimit), None);
  }
}
