/** The command-line helpers of flagutils/handlers.go: the strict rate-limit
    parser, the output path of a single download and the reader of a URL
    list file. */
module Handlers {
  import opened GoLib
  import Parser

  // --------------------------------------------------------- rate limits

  datatype RateError = BadFormat | BadNumber(cause: NumError) | NotPositive | TooLarge

  predicate IsRateSuffix(c: char) {
    c == 'k' || c == 'K' || c == 'm' || c == 'M'
  }

  /** The regular expression ^\d+[kKmM]?$ : one or more ASCII digits and at
      most one unit letter. */
  predicate WellFormedRate(s: string) {
    && s != []
    && AllDigits(s[..|s| - 1])
    && (IsDigit(s[|s| - 1]) || (IsRateSuffix(s[|s| - 1]) && |s| >= 2))
  }

  /** The digits of a well-formed rate. */
  function RateDigits(s: string): (d: string)
    requires WellFormedRate(s)
    ensures d != [] && AllDigits(d)
  {
    if IsDigit(s[|s| - 1]) then s else s[..|s| - 1]
  }

  /** The unit a final rune selects. */
  function UnitOf(c: char): Unit {
    if c == 'k' || c == 'K' then Kibi
    else if c == 'm' || c == 'M' then Mebi
    else Bytes
  }

  /** The checks ParseRateLimit makes before it multiplies: the format, the
      number and its sign. On success, the number and the unit. */
  function RateFactors(s: string): Result<(int, Unit), RateError> {
    if !WellFormedRate(s) then Err(BadFormat)
    else
      var lower := ToLower(s);
      var (u, number) :=
        if HasSuffix(lower, "k") then (Kibi, lower[..|lower| - 1])
        else if HasSuffix(lower, "m") then (Mebi, lower[..|lower| - 1])
        else (Bytes, lower);
      match ParseInt(number)
      case Err(e) => Err(BadNumber(e))
      case Ok(rate) => if rate <= 0 then Err(NotPositive) else Ok((rate, u))
  }

  /** ParseRateLimit as the source has it: the product is an int64
      multiplication, which wraps around for large numbers. */
  function ParseRateLimitAsWritten(s: string): (r: IntAndError<RateError>)
    ensures r.err.Some? ==> r.value == 0
  {
    match RateFactors(s)
    case Err(e) => IntAndError(0, Some(e))
    case Ok((rate, u)) => IntAndError(Wrap64(Scaled(rate, u)), None)
  }

  /** ParseRateLimit with the overflow reported as an error, so that a
      successful result is always the positive rate the string denotes. */
  function ParseRateLimit(s: string): (r: IntAndError<RateError>)
    ensures r.err.Some? ==> r.value == 0
    ensures r.err.None? ==> 0 < r.value <= Int64Max
  {
    match RateFactors(s)
    case Err(e) => IntAndError(0, Some(e))
    case Ok((rate, u)) =>
      if Scaled(rate, u) > Int64Max then IntAndError(0, Some(TooLarge))
      else IntAndError(Scaled(rate, u), None)
  }

  /** Lower-casing a well-formed rate leaves the digits alone. */
  lemma {:induction false} LowerDigits(s: string)
    requires WellFormedRate(s)
    ensures ToLower(s)[..|s| - 1] == s[..|s| - 1]
    ensures ToLower(s)[|s| - 1] == LowerRune(s[|s| - 1])
  {
    var lower := ToLower(s);
    forall i | 0 <= i < |s| - 1
      ensures lower[i] == s[i]
    {
      assert IsDigit(s[..|s| - 1][i]);
    }
  }

  /** RateFactors reads the digits and the unit letter of a well-formed
      rate; any other string is a format error. */
  lemma {:induction false} RateFactorsMeaning(s: string)
    ensures !WellFormedRate(s) ==> RateFactors(s) == Err(BadFormat)
    ensures WellFormedRate(s) ==>
      var n := DigitsValue(RateDigits(s));
      RateFactors(s) ==
        if n > Int64Max then Err(BadNumber(ErrRange))
        else if n == 0 then Err(NotPositive)
        else Ok((n, UnitOf(s[|s| - 1])))
  {
    if WellFormedRate(s) {
      LowerDigits(s);
      var lower := ToLower(s);
      var last := s[|s| - 1];
      assert HasSuffix(lower, "k") <==> lower[|s| - 1] == 'k';
      assert HasSuffix(lower, "m") <==> lower[|s| - 1] == 'm';
      if IsDigit(last) {
        assert lower == s by {
          assert lower == lower[..|s| - 1] + [lower[|s| - 1]];
          assert s == s[..|s| - 1] + [last];
        }
      }
      ParseIntDigits(RateDigits(s));
    }
  }

  /** ParseRateLimit accepts exactly the well-formed strings whose number is
      positive and whose scaled value fits in int64, and then returns that
      value; every rejection carries the value 0. */
  lemma {:induction false} ParseRateLimitMeaning(s: string)
    ensures ParseRateLimit(s).err.None? <==>
      && WellFormedRate(s)
      && 0 < DigitsValue(RateDigits(s))
      && Scaled(DigitsValue(RateDigits(s)), UnitOf(s[|s| - 1])) <= Int64Max
    ensures ParseRateLimit(s).err.None? ==>
      ParseRateLimit(s).value == Scaled(DigitsValue(RateDigits(s)), UnitOf(s[|s| - 1]))
    ensures !WellFormedRate(s) ==> ParseRateLimit(s) == IntAndError(0, Some(BadFormat))
    ensures WellFormedRate(s) && DigitsValue(RateDigits(s)) == 0 ==>
      ParseRateLimit(s) == IntAndError(0, Some(NotPositive))
  {
    RateFactorsMeaning(s);
  }

  /** Writing a positive rate in decimal and parsing it back gives the rate. */
  lemma {:induction false} ParseRateLimitItoa(n: nat)
    requires 0 < n <= Int64Max
    ensures ParseRateLimit(Itoa(n)) == IntAndError(n, None)
  {
    DigitsValueItoa(n);
    ItoaIsRate(n);
    ParseRateLimitMeaning(Itoa(n));
  }

  /** Writing a positive rate in decimal followed by a unit letter and
      parsing it back gives the rate times the unit. */
  lemma {:induction false} ParseRateLimitItoaUnit(n: nat, unit: char)
    requires 0 < n && IsRateSuffix(unit)
    requires Scaled(n, UnitOf(unit)) <= Int64Max
    ensures ParseRateLimit(Itoa(n) + [unit]) == IntAndError(Scaled(n, UnitOf(unit)), None)
  {
    DigitsValueItoa(n);
    ItoaUnitIsRate(n, unit);
    ParseRateLimitMeaning(Itoa(n) + [unit]);
  }

  lemma {:induction false} ItoaIsRate(n: nat)
    ensures WellFormedRate(Itoa(n)) && RateDigits(Itoa(n)) == Itoa(n)
    ensures UnitOf(Itoa(n)[|Itoa(n)| - 1]) == Bytes
  {
    var s := Itoa(n);
    assert IsDigit(s[|s| - 1]);
  }

  lemma {:induction false} ItoaUnitIsRate(n: nat, unit: char)
    requires IsRateSuffix(unit)
    ensures var s := Itoa(n) + [unit];
      WellFormedRate(s) && RateDigits(s) == Itoa(n) && s[|s| - 1] == unit
  {
    var s := Itoa(n) + [unit];
    assert s[..|s| - 1] == Itoa(n);
    assert !IsDigit(unit);
  }

  /** The accepted cases of the source's own test table: "100", and "100"
      followed by any of k, K, m, M. */
  lemma {:induction false} ParseRateLimitAccepts(unit: char)
    requires IsRateSuffix(unit)
    ensures ParseRateLimit("100") == IntAndError(100, None)
    ensures ParseRateLimit("100" + [unit]) ==
      IntAndError(if unit == 'k' || unit == 'K' then 102400 else 104857600, None)
  {
    assert Itoa(100) == "100";
    ParseRateLimitItoa(100);
    ParseRateLimitItoaUnit(100, unit);
  }

  /** The rejected cases of the source's own test table, each with value 0. */
  lemma {:induction false} ParseRateLimitRejects()
    ensures ParseRateLimit("0") == IntAndError(0, Some(NotPositive))
    ensures ParseRateLimit("0k") == IntAndError(0, Some(NotPositive))
    ensures ParseRateLimit("-100") == IntAndError(0, Some(BadFormat))
    ensures ParseRateLimit("1000x") == IntAndError(0, Some(BadFormat))
    ensures ParseRateLimit("abc") == IntAndError(0, Some(BadFormat))
    ensures ParseRateLimit("") == IntAndError(0, Some(BadFormat))
  {
    ItoaIsRate(0);
    ItoaUnitIsRate(0, 'k');
    assert "0k" == Itoa(0) + ['k'];
    ParseRateLimitMeaning("0");
    ParseRateLimitMeaning("0k");
    assert !IsDigit("-100"[0]) && !WellFormedRate("-100");
    assert !IsDigit('x') && !IsRateSuffix('x') && !WellFormedRate("1000x");
    assert !IsDigit("abc"[0]) && !WellFormedRate("abc");
    ParseRateLimitMeaning("-100");
    ParseRateLimitMeaning("1000x");
    ParseRateLimitMeaning("abc");
    ParseRateLimitMeaning("");
  }

  /** A well-formed positive rate whose scaled value does not fit in int64:
      the source multiplies in int64 and returns the wrapped product with no
      error, where the corrected parser reports the overflow. */
  lemma {:induction false} ParseRateLimitAsWrittenOverflow(s: string)
    requires WellFormedRate(s)
    requires 0 < DigitsValue(RateDigits(s)) <= Int64Max
    requires Scaled(DigitsValue(RateDigits(s)), UnitOf(s[|s| - 1])) > Int64Max
    ensures ParseRateLimitAsWritten(s) ==
      IntAndError(Wrap64(Scaled(DigitsValue(RateDigits(s)), UnitOf(s[|s| - 1]))), None)
    ensures ParseRateLimit(s) == IntAndError(0, Some(TooLarge))
  {
    RateFactorsMeaning(s);
  }

  /** The smallest such input: 2^43 mebibytes per second, written
      "8796093022208m", is accepted by the source as the most negative int64. */
  lemma {:induction false} ParseRateLimitAsWrittenWraps(n: nat)
    requires Scaled(n, Mebi) == Int64Max + 1
    ensures var s := Itoa(n) + "m";
      && ParseRateLimitAsWritten(s) == IntAndError(Int64Min, None)
      && ParseRateLimit(s) == IntAndError(0, Some(TooLarge))
  {
    DigitsValueItoa(n);
    ItoaUnitIsRate(n, 'm');
    assert Wrap64(Int64Max + 1) == Int64Min;
    ParseRateLimitAsWrittenOverflow(Itoa(n) + "m");
  }

  // --------------------------------------------------------- output path

  /** The file a single download is written to: the -O name if one was
      given, otherwise the last element of the URL, inside the -P directory. */
  function GetOutputPath(opts: Parser.Options, url: string): (path: string)
    ensures HasPrefix(path, opts.outputPath)
    ensures opts.outputFile == "" && Base(url) != "/" ==> Base(path) == Base(url)
    ensures opts.outputFile != "" && (exists i :: 0 <= i < |opts.outputFile| && opts.outputFile[i] != '/') ==>
      Base(path) == Base(opts.outputFile)
    ensures opts.outputFile != "" && '/' !in opts.outputFile ==> Base(path) == opts.outputFile
  {
    var fileName := if opts.outputFile == "" then Base(url) else opts.outputFile;
    if fileName != "/" && '/' !in fileName then
      BaseJoin(opts.outputPath, fileName);
      BaseJoin([], fileName);
      Join(opts.outputPath, fileName)
    else if exists i :: 0 <= i < |fileName| && fileName[i] != '/' then
      BaseOfJoin(opts.outputPath, fileName); Join(opts.outputPath, fileName)
    else Join(opts.outputPath, fileName)
  }

  // ------------------------------------------------------------ URL list

  /** What reading the input file gives: it could not be opened, or its lines
      and whether the scanner stopped on an error. */
  datatype InputFile = Unopenable | Opened(lines: seq<string>, scanFailed: bool)

  datatype FileError = OpenFailed | ScanFailed

  /** A line names a URL when, trimmed, it is neither empty nor a comment. */
  predicate IsURLLine(line: string) {
    var t := TrimSpace(line);
    t != "" && !HasPrefix(t, "#")
  }

  /** The trimmed URL lines, in file order. */
  function URLLines(lines: seq<string>): seq<string> {
    if lines == [] then []
    else
      var last := lines[|lines| - 1];
      URLLines(lines[..|lines| - 1]) + (if IsURLLine(last) then [TrimSpace(last)] else [])
  }

  method ReadURLsFromFile(file: InputFile) returns (r: Result<seq<string>, FileError>)
    ensures file.Unopenable? ==> r == Err(OpenFailed)
    ensures file.Opened? && file.scanFailed ==> r == Err(ScanFailed)
    ensures file.Opened? && !file.scanFailed ==> r == Ok(URLLines(file.lines))
  {
    if file.Unopenable? {
      return Err(OpenFailed);
    }
    var lines := file.lines;
    var urls: seq<string> := [];
    var i := 0;
    while i < |lines|
      invariant 0 <= i <= |lines|
      invariant urls == URLLines(lines[..i])
    {
      var url := TrimSpace(lines[i]);
      if url != "" && !HasPrefix(url, "#") {
        urls := urls + [url];
      }
      URLLinesStep(lines, i);
      i := i + 1;
    }
    assert lines[..i] == lines;
    if file.scanFailed {
      return Err(ScanFailed);
    }
    return Ok(urls);
  }

  /** One more line of the file adds its URL, if it holds one. */
  lemma {:induction false} URLLinesStep(lines: seq<string>, i: nat)
    requires i < |lines|
    ensures URLLines(lines[..i + 1]) ==
      URLLines(lines[..i]) + (if IsURLLine(lines[i]) then [TrimSpace(lines[i])] else [])
  {
    var next := lines[..i + 1];
    assert next[..|next| - 1] == lines[..i];
    assert next[|next| - 1] == lines[i];
  }

  /** Trimming twice is trimming once. */
  lemma {:induction false} TrimSpaceIdempotent(s: string)
    ensures TrimSpace(TrimSpace(s)) == TrimSpace(s)
  {
    TrimBothEnds(s, IsAsciiSpace);
    TrimBothEndsNone(TrimSpace(s), IsAsciiSpace);
  }

  /** The list is filtered line by line: reading two pieces of a file gives
      the URLs of the first piece followed by those of the second. */
  lemma {:induction false} URLLinesAppend(a: seq<string>, b: seq<string>)
    ensures URLLines(a + b) == URLLines(a) + URLLines(b)
  {
    if b != [] {
      var b' := b[..|b| - 1];
      URLLinesAppend(a, b');
      assert (a + b)[..|a + b| - 1] == a + b';
    } else {
      assert a + b == a;
    }
  }

  /** Every entry is a trimmed line that is neither empty nor a comment. */
  lemma {:induction false} URLLinesEntries(lines: seq<string>)
    ensures forall u :: u in URLLines(lines) ==> IsURLLine(u) && TrimSpace(u) == u
  {
    if lines != [] {
      var last := lines[|lines| - 1];
      URLLinesEntries(lines[..|lines| - 1]);
      TrimSpaceIdempotent(last);
    }
  }

  /** Every URL line of the file is kept. */
  lemma {:induction false} URLLinesComplete(lines: seq<string>, i: nat)
    requires i < |lines| && IsURLLine(lines[i])
    ensures TrimSpace(lines[i]) in URLLines(lines)
  {
    var init := lines[..|lines| - 1];
    if i < |lines| - 1 {
      assert init[i] == lines[i];
      URLLinesComplete(init, i);
    }
  }

  /** Every entry comes from a line of the file. */
  lemma {:induction false} URLLinesSound(lines: seq<string>, u: string)
    requires u in URLLines(lines)
    ensures exists i :: 0 <= i < |lines| && TrimSpace(lines[i]) == u
  {
    var init := lines[..|lines| - 1];
    if u in URLLines(init) {
      URLLinesSound(init, u);
      var i :| 0 <= i < |init| && TrimSpace(init[i]) == u;
      assert lines[i] == init[i];
    } else {
      assert TrimSpace(lines[|lines| - 1]) == u;
    }
  }
}
