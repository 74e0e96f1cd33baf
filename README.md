# wget, the command-line downloader: a Dafny model

This project models the sequential core of a small `wget` clone written in
Go. It covers:

- the two rate-limit parsers: the strict `-rate-limit` validator of
  `flagutils` and the lenient parser used by the downloader;
- the rate-limited reader, with its one-second quota window;
- the progress display: the duration and size formatters, the two
  40-cell bars and the byte-counting tracker;
- the clean-up of the `--reject` and `--exclude` lists in `ParseFlags`;
- the URL-list filter of the input file;
- the decisions `downloadFileWithProgress` takes: the status check, the
  directory and the file, when a limiter and a progress bar are installed;
- the per-URL bookkeeping of the multi-URL downloader;
- the driver in `main.go`: `~/` expansion, the output file name and its
  sanitising, the one-URL checks and the success count.

Everything outside the program is an input:

- time is an integer count of nanoseconds, passed in or kept by a `Clock`
  object that sleeping advances;
- the network and the file system are records of outcomes (`Downloader.World`,
  `Concurrent.Attempt`, `Cli.Machine`); under the rate limiter, how the
  response body delivers its bytes (short reads, a failing read) is a script
  of `RateLimit.Delivery` values;
- what the program would print is collected as values: the steps a download
  takes, and the lines the progress tracker prints.

One module per Go file:

| module | file |
|---|---|
| `GoLib` | the Go library functions the core relies on (`strconv.ParseInt`, `strings.TrimSpace`/`Trim`/`Split`, `filepath.Base`/`Join`, int64 wrap-around) |
| `Handlers` | flagutils/handlers.go |
| `Parser` | flagutils/parser.go |
| `Downloader` | downloadutils/downloader.go |
| `RateLimit` | downloadutils/ratelimit.go |
| `Progress` | models/progress.go |
| `Concurrent` | downloadutils/concurrent.go |
| `Cli` | main.go |

Where the code and its documentation disagree, the model follows the code:

- only status 200 counts as success, not every 2xx status;
- the lenient parser also accepts a `g` suffix and negative numbers;
- the worker results never carry a size.

## Model

| member | source | states |
|---|---|---|
| Handlers.RateFactorsMeaning | flagutils/handlers.go:55-80 | An input outside `^\d+[kKmM]?$` fails with the format error. A well-formed input yields its digits' value and the unit of its last rune (k/K: KiB, m/M: MiB, otherwise bytes), unless the number does not fit int64 or is 0. |
| Handlers.ParseRateLimit | flagutils/handlers.go:54-83 | Every error returns the value 0. Every success is a positive int64. (This is the corrected form: a product beyond int64 is an error.) |
| Handlers.ParseRateLimitMeaning | flagutils/handlers.go:54-83 | The parse succeeds iff the input is well formed, its number is positive and the scaled value fits int64. The value is then number × 1, × 1024 or × 1024². Malformed input gives BadFormat, and a zero number gives NotPositive. |
| Handlers.ParseRateLimitItoa | flagutils/handlers.go:73-82 | Any positive int64 written in decimal without a suffix reads back as itself. |
| Handlers.ParseRateLimitItoaUnit | flagutils/handlers.go:61-82 | A positive number followed by k, K, m or M reads back as the number times 1024 or 1024², in either case, whenever that fits int64. |
| Handlers.ParseRateLimitAccepts | flagutils/flagutils_test.go:13-17 | "100" gives 100. "100k" and "100K" give 102400. "100m" and "100M" give 104857600. |
| Handlers.ParseRateLimitRejects | flagutils/flagutils_test.go:18-22 | "0" and "0k" are rejected as not positive. "-100", "1000x", "abc" and "" are rejected as malformed. All give the value 0. |
| Handlers.ParseRateLimitAsWritten | flagutils/handlers.go:54-83 | The code as written: every error returns 0, but the product is an int64 multiplication that wraps around. |
| Handlers.ParseRateLimitAsWrittenOverflow | flagutils/handlers.go:73-82 | For every well-formed positive rate whose scaled value exceeds int64, the code as written returns the wrapped product with no error. The corrected parser returns TooLarge. |
| Handlers.ParseRateLimitAsWrittenWraps | flagutils/handlers.go:82 | The number n with n × 1024² = 2⁶³, followed by "m", gives the negative value −2⁶³ with no error as written. The corrected parser rejects it. |
| Handlers.GetOutputPath | flagutils/handlers.go:45-51 | The path lies under the output directory. With -O given, its base name is the base of -O: -O itself when -O has no slash. Without -O, the base name is the last element of the URL. |
| Handlers.ReadURLsFromFile | flagutils/handlers.go:86-107 | A file that cannot be opened, or a scan error, gives an error. Otherwise the result is exactly `URLLines` of the file's lines. |
| Handlers.URLLinesEntries | flagutils/handlers.go:96-98 | Every URL kept is trimmed, non-empty and not a comment. |
| Handlers.URLLinesComplete | flagutils/handlers.go:95-100 | Every line that is non-empty after trimming and does not start with '#' is kept, trimmed. |
| Handlers.URLLinesSound | flagutils/handlers.go:95-100 | Every URL kept is the trimmed text of some line of the file. |
| Handlers.URLLinesAppend | flagutils/handlers.go:95-100 | The filter works line by line: the URLs of two pieces of a file are the URLs of the first piece followed by those of the second, so file order is kept. |
| Handlers.TrimSpaceIdempotent | flagutils/handlers.go:96 | Trimming a trimmed line changes nothing. |
| Parser.SelectList | flagutils/parser.go:70-73 | The long flag wins whenever it is non-empty. Otherwise the short flag is used. |
| Parser.DefaultFlags | flagutils/parser.go:17-34 | Every boolean flag is off and every string flag is "", except `--dynamic`, which defaults to true. The arguments are kept. |
| Parser.ParseFlags | flagutils/parser.go:46-107 | With no argument and no input file the result is "no URL specified". It succeeds iff a URL source exists, the output directory can be resolved and the input file does not "not exist". The URL is the first argument. Both lists are the cleaned form of the selected flag. `-P` is made absolute, or the working directory is used. |
| Parser.CleanRejectList | flagutils/parser.go:59-67 | The loop that rewrites the split list entry by entry yields `RejectTypes(list)`. |
| Parser.CleanExcludeList | flagutils/parser.go:74-82 | The loop that rewrites the split list entry by entry yields `ExcludePaths(list)`. |
| Parser.RejectTypesShape | flagutils/parser.go:60-66 | A non-empty list gives one entry per comma-separated field, so the count of commas plus one, and no entry contains a comma. |
| Parser.ExcludePathsShape | flagutils/parser.go:75-81 | There is one entry per field and no entry contains a comma. No entry starts or ends with '/'. |
| Parser.RejectTypesRoundTrip | flagutils/parser.go:60-66 | Joining plain extensions with commas and cleaning gives them back. Each ".ext" also gives "ext". |
| Parser.ExcludePathsRoundTrip | flagutils/parser.go:75-81 | Joining plain paths with commas and cleaning gives them back. Each "/p/" also gives "p". |
| Parser.CleanRejectTypeOneDot | flagutils/parser.go:63-65 | Only one leading dot is removed: "..e" becomes ".e" and ".e" becomes "e". |
| Parser.CleanExcludePathSlashes | flagutils/parser.go:78-80 | Any number of leading and trailing slashes is removed. |
| Parser.TrimSpaceInside | flagutils/parser.go:78 | Trimming only removes runes; it adds none. |
| Downloader.ParseRateLimit | downloadutils/downloader.go:16-45 | "" gives (0, no error). Every error returns 0. The value is always an int64, because the product wraps around as in Go. |
| Downloader.ParseRateLimitFormatInt | downloadutils/downloader.go:21-44 | Any int64 written in decimal, including zero and negatives, reads back as itself with multiplier 1. |
| Downloader.ParseRateLimitItoaUnit | downloadutils/downloader.go:21-44 | A number followed by k, m or g in either case gives the number times 1024, 1024² or 1024³, whenever that fits int64. |
| Downloader.ParseRateLimitBareUnit | downloadutils/downloader.go:25-42 | A bare unit letter leaves an empty number, which is a syntax error. |
| Downloader.ParseRateLimitBadLast | downloadutils/downloader.go:25-42 | A last rune that is neither a digit nor a unit stays in the number, so the call fails. The error is the one `strconv` meets first: a range error when the digits after the sign already pass 2⁶⁴−1, a syntax error otherwise. |
| Downloader.ParseRateLimitOverflowBeforeRune | downloadutils/downloader.go:39-41 | A number past 2⁶⁴−1 followed by "x" is a range error, not a syntax error. |
| Downloader.ParseRateLimitExamples | downloadutils/downlaodutils_test.go:212-214 | "100k" gives 102400, "1M" gives 1048576, and "abc" gives 0 with an error. |
| Downloader.ParseRateLimitAgrees | downloadutils/downloader.go:16-45 | Wherever the strict parser accepts a rate, the lenient one gives the same value. |
| Downloader.Limiter | downloadutils/downloader.go:108-117 | A limiter is installed iff the rate string is non-empty and parses to a positive value, and it runs at that value. |
| Downloader.DownloadFileWithProgress | downloadutils/downloader.go:63-143 | Gives the exact actions and error for each way the call can end. A failed request or a status other than 200 gives no action. A failed mkdir stops after making the directory. A failed create, or a rate that does not parse, stops after creating the file. Otherwise the actions are `CopyPlan`: the limiter when `Limiter` gives one, the tracker over the content length iff progress is on and the output is stdout, then the copy. The call succeeds iff the copy worked. |
| Downloader.CopyPlanSteps | downloadutils/downloader.go:92-131 | A download that reaches the copy makes the directory and the file. It installs a limiter exactly at the given limit and a tracker exactly over the given total. |
| Downloader.DownloadFile | downloadutils/downloader.go:48-50 | A copied body always has a progress tracker over the content length. The call succeeds iff `Succeeds`. |
| Downloader.DownloadFileSilent | downloadutils/downloader.go:53-55 | No progress tracker is installed. The call succeeds iff `Succeeds`. |
| Downloader.DownloadFileBackground | downloadutils/downloader.go:58-60 | The log file is not stdout, so no progress tracker is installed. The call succeeds iff `Succeeds`. |
| RateLimit.Clock.Sleep | downloadutils/ratelimit.go:54 | Sleeping advances the clock by the duration, or not at all when the duration is not positive. |
| RateLimit.Body.Read | downloadutils/ratelimit.go:66 | Returns what the network delivers for the request: at most the requested size, the call's cap and the bytes left. A failing call gives an error and no bytes, and an empty body gives EOF. The delivered bytes go to the front of p, and the rest of p is unchanged. With no script it is the tests' in-memory reader. |
| RateLimit.AllowedBounds | downloadutils/ratelimit.go:37-41 | The allowance is between 0 and the rate, and equals the rate after a full window. |
| RateLimit.AdmitBounds | downloadutils/ratelimit.go:43-58 | The quota granted is positive. With the bytes the window already holds, it never exceeds the rate. A full window since the last read restarts without waiting. The reader waits iff the window's allowance is used up, and after a wait it grants the full rate. |
| RateLimit.RateLimitedReader.constructor | downloadutils/ratelimit.go:20-28 | A new reader has read 0 bytes, its last read is now and its window is one second. |
| RateLimit.RateLimitedReader.Read | downloadutils/ratelimit.go:30-79 | 0 ≤ bytesRead ≤ rateLimit is kept. The body is asked for min(len(p), quota) bytes. n and the error are exactly what the body delivers for that request, short reads and failures included. `bytesRead` grows by exactly n. n ≤ len(p) and n ≤ rateLimit. After a wait, a full window has passed. The call ends no earlier than n/rate seconds after the window's start. `lastRead` is the final clock. |
| RateLimit.ShortBodyRead | downloadutils/ratelimit.go:66-79 | A body that delivers only 2 of the 5 allowed bytes, then fails, gives "He" and then the failure, with the rest of the body unread. |
| RateLimit.ExceedRateLimit | downloadutils/downlaodutils_test.go:301-308 | At 5 bytes/s, a 10-byte read of "HelloWorld" returns 5 bytes, "Hello". |
| Progress.Pad2 | models/progress.go:45-46 | `%02d` is two digits whose value is the number. |
| Progress.FormatDurationShort | models/progress.go:36-38 | The output is "< 1s" iff the duration is below one second, negative durations included. |
| Progress.ReadFormatDuration | models/progress.go:35-50 | From one second on, the output reads back as the whole number of seconds in the duration: hours, then minutes and seconds mod 60. |
| Progress.ReadHoursMinutesSeconds | models/progress.go:44-45 | `<h>h<mm>m<ss>s` reads back as h·3600 + m·60 + s. |
| Progress.ReadMinutesSeconds | models/progress.go:46-47 | `<m>m<ss>s` reads back as m·60 + s. |
| Progress.ReadSeconds | models/progress.go:49 | `<s>s` reads back as s. |
| Progress.FormatDurationExamples | downloadutils/downlaodutils_test.go:235-237 | 500 ms gives "< 1s", 5 s gives "5s", and 150 s gives "2m30s". |
| Progress.FormatDurationHours | models/progress.go:44-45 | 3725 s gives "1h02m05s". |
| Progress.SizeScale | models/progress.go:26-30 | The loop ends with exp = `SizeExponent(bytes)` and div = 1024^(exp+1), so div ≤ bytes < 1024·div. |
| Progress.StepsBounds | models/progress.go:26-30 | The number of divisions by 1024 is the exponent of the largest power of 1024 not above the number. |
| Progress.SizeExponentRange | models/progress.go:26-30 | Sizes in [1024^(k+1), 1024^(k+2)) get exponent k. |
| Progress.FormatSizeAsWritten | models/progress.go:21-32 | The code as written: "<n> B" below 1024. Otherwise the size over div with the letter `"KMG"[exp]`, and a panic (None) exactly when exp ≥ 3. |
| Progress.FormatSizeAsWrittenPanics | models/progress.go:31 | Every size in [1024⁴, 1024⁵) reaches exp = 3, past the end of "KMG". |
| Progress.SizeExponentInt64 | models/progress.go:21-31 | Every int64 size has an exponent within "KMGTPE". |
| Progress.SizeLabel | models/progress.go:21-32 | Exact text iff below 1024. Otherwise the divisor brackets the size and the unit is three runes. |
| Progress.FormatSize | models/progress.go:21-32 | Corrected formatSize: "<n> B" below 1024. Otherwise `Fraction(bytes, 1024^(exp+1), "<K…E>iB")` for every int64 size, with div ≤ bytes < 1024·div. |
| Progress.UnitLettersAgree | models/progress.go:31 | Below 1 TiB the corrected table picks the same letter as "KMG". |
| Progress.CursorBar | models/progress.go:119-125 | With an unknown total the bar has exactly 40 cells: '-' everywhere except a single '>' at (current/1024) mod 40. |
| Progress.CursorAdvances | models/progress.go:121 | Each further KiB moves the cursor one cell, wrapping at the end. |
| Progress.CompletedBounds | models/progress.go:138-141 | The '=' count lies in [0, 40], and is 40 once current ≥ total. |
| Progress.FilledBar | models/progress.go:138-143 | With a known total the bar has exactly 40 cells: '=' on the first `Completed` cells and '-' after them. |
| Progress.FilledBarMonotone | models/progress.go:138-143 | More bytes never shrink the filled part, and a complete download fills it. |
| Progress.FrameOf | models/progress.go:111-165 | Each frame has a 40-cell bar, the received size and the elapsed time. It shows the total's size iff the total is known (> 0). |
| Progress.Progress.constructor | models/progress.go:53-63 | A new tracker has width 40, current 0, and every clock set to now. |
| Progress.Progress.Write | models/progress.go:65-77 | Returns len(b) and adds it to `current`. A frame is printed, and `lastPrint` set to now, iff 100 ms passed since the last frame. Otherwise nothing else changes. |
| Progress.Progress.Start | models/progress.go:79-85 | Restarts the clocks and prints a frame with zero elapsed time. |
| Progress.Progress.Stop | models/progress.go:87-91 | Prints a last frame, then "Total time" with the time since the start. |
| Progress.Progress.CalculateSpeed | models/progress.go:93-110 | The bytes and nanoseconds since the last measurement, which then restarts. The byte count is never negative. |
| Progress.Progress.PrintProgress | models/progress.go:111-165 | Appends exactly `FrameOf(current, total, now − started)` and restarts the speed measurement. |
| Concurrent.SafeRune | downloadutils/concurrent.go:94-99 | A rune from `<>:"/\|?*` becomes '_', and every other rune is kept. |
| Concurrent.FileNameSafe | downloadutils/concurrent.go:88-99 | The name is never empty and holds no forbidden rune. It is "index.html" when the base is "/" or ".". Otherwise it has the base's length, with every forbidden rune of the base replaced and every other rune kept in place. |
| Concurrent.FileNameOfJoin | downloadutils/concurrent.go:88-99 | A plain file name at the end of a path comes back unchanged. |
| Concurrent.FileNameOfEmpty | downloadutils/concurrent.go:89-91 | An empty URL path gives "index.html". |
| Concurrent.NewConcurrentDownloader | downloadutils/concurrent.go:29-35 | Keeps the concurrency, output directory and rate limit it is given. |
| Concurrent.GetContentSizes | downloadutils/concurrent.go:38-50 | Exactly one size per URL, in order: the HEAD content length, or 0 when HEAD fails. |
| Concurrent.Work | downloadutils/concurrent.go:76-112 | A URL that does not parse gives an invalid-URL failure with no download. Otherwise the file goes to `Join(outputPath, FileNameFromPath(path))`, success holds iff there is no error iff the download `Succeeds`, and the size is never filled in. |
| Concurrent.DownloadURLs | downloadutils/concurrent.go:53-149 | There is one size per URL. With no worker there are no results. Otherwise there is one result per URL, each reporting its own URL's outcome. The successful URLs are exactly those of error-free results. A rate that does not parse leaves none. |
| Concurrent.SucceededURLsCount | downloadutils/concurrent.go:136-142 | The successful URLs are as many as the results marked successful, and are exactly their URLs. |
| Concurrent.NoneSucceeded | downloadutils/concurrent.go:136-142 | When every result has an error, no URL is listed as successful. |
| Cli.ExpandPath | main.go:17-26 | A path without "~/" is returned unchanged. A "~/" path succeeds iff the home directory is known. The only error is the home directory's. |
| Cli.ExpandPathHome | main.go:18-23 | "~/rest" becomes home + "/" + rest. |
| Cli.ExpandPathIdempotent | main.go:17-26 | Expanding an expanded path changes nothing when home does not start with '~'. |
| Cli.ModeDirectory | main.go:179-189 | An empty -P gives the mode's default. Otherwise the directory is the expansion of -P. |
| Cli.DirectFileName | main.go:192-216 | With -O the name is -O's base name. Otherwise it exists iff the URL parses, and it is non-empty and free of forbidden runes. |
| Cli.OutputFileNotSanitised | main.go:192-215 | A ':' in the -O name survives, where the same name taken from the URL path is cleaned. |
| Cli.BackgroundFileName | main.go:55-59 | The name is the URL's base, or "index.html"; it is never empty and has no slash. |
| Cli.CollectURLs | main.go:109-116 | The scanner loop yields exactly `URLLines` of the file. |
| Cli.CountSuccesses | main.go:127-132 | The count equals the number of results marked successful, and is at most the number of results. |
| Cli.Run | main.go:28-226 | Background and mirror mode fail unless exactly one URL is given. Input-file mode fails on open, directory or scan errors, and otherwise reports one result per URL line, with a success count at most the total. The direct download crashes on an empty URL list and fails on an invalid URL. Otherwise it saves to the directory joined with the chosen name iff the download `Succeeds`. |
| GoLib.ScanDigitsMeaning | downloadutils/downloader.go:39 | The left-to-right loop of `strconv.ParseUint` gives a range error exactly when the leading digits, after those already read, pass 2⁶⁴−1. Otherwise it gives a syntax error when a rune other than a digit follows them, and their value when none does. |
| GoLib.ParseIntReads | downloadutils/downloader.go:39 | `strconv.ParseInt` in terms of the leading digits after the sign. An empty number is a syntax error. Digits past 2⁶⁴−1 are a range error. Then a stray rune is a syntax error. Then the signed value is the result, or a range error outside int64. |
| GoLib.ParseIntFormatInt | downloadutils/downloader.go:39 | `strconv.ParseInt` reads back every int64 that `FormatInt` writes. |
| GoLib.ParseIntErrors | downloadutils/downloader.go:39 | A success is an int64 read from a sign and digits only. The result is a range error exactly when the leading digits pass 2⁶⁴−1, or when every rune is a digit and the value is outside int64. |
| GoLib.ParseIntOverflowFirst | downloadutils/downloader.go:39 | Digits past 2⁶⁴−1 are a range error whatever follows them. |
| GoLib.BaseOfJoin | flagutils/handlers.go:50 | The base of a joined path is the base of the name, whenever the name has a rune other than '/'. |
| GoLib.SplitJoin | flagutils/parser.go:75 | Splitting comma-joined comma-free parts gives the parts back. |
| GoLib.BaseJoin | flagutils/handlers.go:48-50 | The base of dir joined with a plain name is the name. |

## Left out

- The mirror engine (path mapping, link rewriting, CSS and HTML extraction, `Mirror`) and its headless-browser rendering are outside the model; mirror mode ends at `MirrorRequested`, and the nil check on the mirror options is not modelled.
- Network and file-system I/O: the request, the HEAD requests, creating directories and files, copying the body, the log file and standard-output redirection, and `os.Stat`, `filepath.Abs` and `os.Getwd`. Their outcomes are inputs.
- Flag registration and `flag.Parse`: `Parser.ParseFlags` takes the parsed flag values.
- Printed messages and the time stamps of a download are not modelled; the steps a download takes and the lines the progress tracker prints are.
- Concurrency: the worker pool, its channels and its `WaitGroup`, the rate limiter's mutex and the background goroutine. The model runs one URL after another.
- Concurrent.DownloadURLs: results are listed in URL order; with several workers the source collects them in completion order.
- Cli.Run: the same URL string meets the same network outcome each time it appears, because the network is a function of the URL.
- Cli.Run: `options.URLs` is taken as given. The `ParseFlags` shown fills only `URL`, and the options record of models/options.go has no `URLs` field.
- Floating point: the speed, the ETA and the percentage of a progress frame, the `%.1f` quotient in `formatSize`, and the MB figure of a download are not modelled. `RateLimit` replaces `elapsed.Seconds() * rate` and `n / rate * time.Second` with integer arithmetic on nanoseconds, rounding down.
- Progress.Completed: computed with integer division. The source computes `float64(width) * float64(current) / float64(total)` in float64, which can round across an integer for totals from about 2⁴⁸ bytes. Current 337043175496976 of total 408537182420577 gives 33 in IEEE double arithmetic and 32 here.
- Progress.FormatDuration: hours, minutes and seconds use integer division. The source truncates the float64 results of `Hours()`, `Minutes()` and `Seconds()`, which round up just below a unit boundary from about 4097 hours. 4097 h less 1 ns is "4097h59m59s" in the source and "4096h59m59s" here.
- Progress.ReadFormatDuration: the round trip is proved of the integer formatter; for durations of about 4097 hours and more, the source's float rounding can break it.
- Progress.Progress.PrintProgress: frames are printed through the corrected `FormatSize` (see Findings). As written, `formatSize` panics once the total or the current count reaches 1 TiB, and the tracker does not model that panic.
- Progress.FrameOf: the sizes are labelled by the corrected `FormatSize`, not by the panicking code as written.
- Downloader.DownloadFileWithProgress: with a progress tracker on stdout and a content length of 1 TiB or more, the source panics at `progress.Start()` through the `formatSize` bug; the model follows the corrected formatter and ends the download normally. A body that grows past 1 TiB panics in the same way at a later frame.
- Downloader.DownloadFile: the same panic for bodies of 1 TiB or more is not modelled; the model reports the download's outcome.
- Cli.Run: in the direct mode, the same panic ends the program where the model's outcome is `Saved` or `Failed`.
- Progress.Progress.Write: requires that `current` stays within int64; it does not model the counter wrapping around.
- Progress.FormatSize: the speed shown in each frame (`formatSize(int64(speed))`) is left out with the speed itself.
- `filepath.Clean` is not modelled: `Join` is `dir + "/" + name`, and `Cli.Run` gives the joined path without clean-up.
- `strings.ToLower` lowers ASCII letters and the Kelvin sign only, and `strings.TrimSpace` trims ASCII white space only.
- The `Close` methods and the deferred closes.
- downloadutils/progress.go (a second, float-based progress bar), models/options.go and pkg/types/types.go beyond the fields used, and the tests that target identifiers missing from the code (the `KB` labels, speed smoothing, `windowSize`) are not part of this model.

## Findings

| source | as written | input that shows it | evidently intended | confidence | as-written member | corrected member |
|---|---|---|---|---|---|---|
| flagutils/handlers.go:82 | `rate * multiplier` is an int64 product that wraps around, and its result is returned with a nil error | "8796093022208m" (2⁴³ × 1024² = 2⁶³) gives −9223372036854775808 and no error | a rate whose scaled value does not fit int64 is rejected, like any other invalid rate | not executed | Handlers.ParseRateLimitAsWrittenWraps | Handlers.ParseRateLimit |
| models/progress.go:31 | the unit letter is `"KMG"[exp]`, and the loop lets exp reach 3 at 1024⁴ bytes | 1099511627776 (1 TiB) makes exp = 3 and the index goes out of range, a panic | every int64 size gets a unit (T, P, E beyond G) | not executed | Progress.FormatSizeAsWrittenPanics | Progress.FormatSize |
