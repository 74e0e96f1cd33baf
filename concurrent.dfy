/** The multi-URL downloader of downloadutils/concurrent.go, run as one
    sequential pass over the URLs. What the network answers is an input:
    for each URL, whether it parses (and to which path), what the HEAD
    request gives and what the download meets (a Downloader.World). */
module Concurrent {
  import opened GoLib
  import Downloader

  // ----------------------------------------------------------- file names

  /** The runes a file name may not hold. */
  const Forbidden: string := "<>:\"/\\|?*"

  /** The rune strings.Map puts in place of `c`. */
  function SafeRune(c: char): (r: char)
    ensures r !in Forbidden
    ensures c in Forbidden ==> r == '_'
    ensures c !in Forbidden ==> r == c
  {
    if c in Forbidden then '_' else c
  }

  /** The name derived from a URL path: its base, "index.html" when the
      base is "", "." or "/", with every forbidden rune turned into '_'. */
  function FileNameFromPath(path: string): (name: string)
  {
    var base := Base(path);
    var chosen := if base == "" || base == "." || base == "/" then "index.html" else base;
    MapEach(chosen, SafeRune)
  }

  /** The derived name is never empty, holds no forbidden rune (no slash in
      particular, so it stays inside the output directory), is "index.html"
      for the root and for ".", and otherwise keeps every rune of the base
      that is not forbidden where it was. */
  lemma {:induction false} FileNameSafe(path: string)
    ensures var name := FileNameFromPath(path);
      && name != []
      && (Base(path) in {".", "/"} ==> name == "index.html")
      && (forall i :: 0 <= i < |name| ==> name[i] !in Forbidden)
      && (Base(path) !in {".", "/"} ==>
            |name| == |Base(path)|
            && forall i :: 0 <= i < |name| ==>
                 (Base(path)[i] in Forbidden ==> name[i] == '_')
                 && (Base(path)[i] !in Forbidden ==> name[i] == Base(path)[i]))
  {
    var base := Base(path);
    var name := FileNameFromPath(path);
    if base == "" || base == "." || base == "/" {
      IndexHtmlKept();
      assert name == "index.html";
    } else {
      assert name == MapEach(base, SafeRune);
    }
  }

  /** strings.Map with SafeRune leaves a name without forbidden runes as
      it is. */
  lemma {:induction false} SafeNameUnchanged(name: string)
    requires forall i :: 0 <= i < |name| ==> name[i] !in Forbidden
    ensures MapEach(name, SafeRune) == name
  {
  }

  /** A plain file name joined under a directory comes back unchanged. */
  lemma {:induction false} FileNameOfJoin(dir: string, name: string)
    requires name != [] && name != "." && forall i :: 0 <= i < |name| ==> name[i] !in Forbidden
    ensures FileNameFromPath(Join(dir, name)) == name
  {
    assert '/' !in name by {
      forall i | 0 <= i < |name| ensures name[i] != '/' {
        assert name[i] !in Forbidden;
      }
    }
    BaseJoin(dir, name);
    SafeNameUnchanged(name);
  }

  /** An empty path names "index.html". */
  lemma {:induction false} FileNameOfEmpty()
    ensures FileNameFromPath("") == "index.html"
  {
    IndexHtmlKept();
  }

  /** The default name has no forbidden rune. */
  lemma {:induction false} IndexHtmlKept()
    ensures MapEach("index.html", SafeRune) == "index.html"
  {
    SafeNameUnchanged("index.html");
  }

  // -------------------------------------------------------------- results

  datatype ResultError = InvalidURL | DownloadFailed(cause: Downloader.DownloadError)

  /** Result: the URL, whether it was saved, the error, the size (which
      the workers never fill in) and where the file went. */
  datatype DownloadResult = DownloadResult(
    url: string, success: bool, error: Option<ResultError>, size: int, outputPath: string)

  /** What the outside world does with one URL: url.Parse gives its path or
      fails, the HEAD request gives a content length or fails, and the
      download meets `world`. */
  datatype Attempt = Attempt(path: Option<string>, head: Option<int>, world: Downloader.World)

  /** ConcurrentDownloader's settings. */
  datatype Settings = Settings(concurrency: int, outputPath: string, rateLimit: string)

  /** NewConcurrentDownloader. */
  function NewConcurrentDownloader(concurrency: int, outputPath: string, rateLimit: string): (d: Settings)
    ensures d.concurrency == concurrency && d.outputPath == outputPath && d.rateLimit == rateLimit
  {
    Settings(concurrency, outputPath, rateLimit)
  }

  /** The URLs of the results without an error, in order. */
  function SucceededURLs(results: seq<DownloadResult>): (urls: seq<string>)
    ensures |urls| <= |results|
  {
    if results == [] then []
    else
      var rest := SucceededURLs(results[..|results| - 1]);
      var last := results[|results| - 1];
      if last.error.None? then rest + [last.url] else rest
  }

  /** How many results report success. */
  function Successes(results: seq<DownloadResult>): (n: nat)
    ensures n <= |results|
  {
    if results == [] then 0
    else Successes(results[..|results| - 1]) + (if results[|results| - 1].success then 1 else 0)
  }

  /** Where the results mark success exactly when there is no error (as the
      workers build them), the successful URLs are as many as the
      successes, and every one of them is the URL of a successful result. */
  lemma {:induction false} SucceededURLsCount(results: seq<DownloadResult>)
    requires forall i :: 0 <= i < |results| ==> (results[i].success <==> results[i].error.None?)
    ensures |SucceededURLs(results)| == Successes(results)
    ensures forall u :: u in SucceededURLs(results) <==>
      exists i :: 0 <= i < |results| && results[i].success && results[i].url == u
  {
    if results != [] {
      var init := results[..|results| - 1];
      assert forall i :: 0 <= i < |init| ==> init[i] == results[i];
      SucceededURLsCount(init);
      forall u
        ensures u in SucceededURLs(results) <==>
          exists i :: 0 <= i < |results| && results[i].success && results[i].url == u
      {
        if u in SucceededURLs(init) {
          var i :| 0 <= i < |init| && init[i].success && init[i].url == u;
          assert results[i] == init[i];
        }
        if exists i :: 0 <= i < |results| && results[i].success && results[i].url == u {
          var i :| 0 <= i < |results| && results[i].success && results[i].url == u;
          if i < |init| {
            assert init[i] == results[i];
          }
        }
      }
    }
  }

  lemma {:induction false} SucceededURLsAppend(results: seq<DownloadResult>, r: DownloadResult)
    ensures SucceededURLs(results + [r]) ==
      SucceededURLs(results) + (if r.error.None? then [r.url] else [])
  {
    assert (results + [r])[..|results|] == results;
  }

  /** With a rate limit that does not parse no download goes through, so
      no URL is listed as successful. */
  lemma {:induction false} NoneSucceeded(results: seq<DownloadResult>)
    requires forall i :: 0 <= i < |results| ==> results[i].error.Some?
    ensures SucceededURLs(results) == []
  {
    if results != [] {
      NoneSucceeded(results[..|results| - 1]);
    }
  }

  // ----------------------------------------------------------- operations

  /** getContentSizes: one size per URL, in order, 0 where HEAD fails. */
  method GetContentSizes(attempts: seq<Attempt>) returns (sizes: seq<int>)
    ensures |sizes| == |attempts|
    ensures forall i :: 0 <= i < |attempts| ==>
      sizes[i] == (if attempts[i].head.Some? then attempts[i].head.value else 0)
  {
    sizes := [];
    for i := 0 to |attempts|
      invariant |sizes| == i
      invariant forall j :: 0 <= j < i ==>
        sizes[j] == (if attempts[j].head.Some? then attempts[j].head.value else 0)
    {
      match attempts[i].head {
        case None => sizes := sizes + [0];
        case Some(length) => sizes := sizes + [length];
      }
    }
  }

  /** The worker's handling of one URL: an unparsable URL fails at once;
      otherwise the file goes under the output directory with the derived
      name and the result records what DownloadFileSilent returned. */
  method Work(d: Settings, url: string, attempt: Attempt) returns (r: DownloadResult)
    ensures r.url == url && r.size == 0
    ensures r.success <==> r.error.None?
    ensures attempt.path.None? ==> r == DownloadResult(url, false, Some(InvalidURL), 0, "")
    ensures attempt.path.Some? ==>
      && r.outputPath == Join(d.outputPath, FileNameFromPath(attempt.path.value))
      && (r.success <==> Downloader.Succeeds(d.rateLimit, attempt.world))
      && (r.error.Some? ==> r.error.value.DownloadFailed?)
  {
    if attempt.path.None? {
      return DownloadResult(url, false, Some(InvalidURL), 0, "");
    }
    var fileName := FileNameFromPath(attempt.path.value);
    var outputPath := Join(d.outputPath, fileName);
    var steps, err := Downloader.DownloadFileSilent(outputPath, d.rateLimit, attempt.world);
    var error := if err.None? then None else Some(DownloadFailed(err.value));
    r := DownloadResult(url, err.None?, error, 0, outputPath);
  }

  /** Whether a URL's download goes through. */
  predicate Saved(d: Settings, attempt: Attempt) {
    attempt.path.Some? && Downloader.Succeeds(d.rateLimit, attempt.world)
  }

  /** What the result for one URL says: its URL, no size, success exactly
      when there is no error and the download went through, and the
      invalid-URL error for a URL that does not parse. */
  predicate Reports(d: Settings, url: string, attempt: Attempt, r: DownloadResult) {
    && r.url == url && r.size == 0
    && (r.success <==> r.error.None?)
    && (r.success <==> Saved(d, attempt))
    && (attempt.path.None? ==> r.error == Some(InvalidURL))
  }

  /** DownloadURLs: the sizes of the first pass, then one result per URL
      (none at all without a worker), and the URLs that succeeded. */
  method DownloadURLs(d: Settings, urls: seq<string>, attempts: seq<Attempt>)
    returns (sizes: seq<int>, results: seq<DownloadResult>, successfulURLs: seq<string>)
    requires |attempts| == |urls|
    ensures |sizes| == |urls|
    ensures d.concurrency <= 0 ==> results == [] && successfulURLs == []
    ensures d.concurrency > 0 ==> |results| == |urls|
    ensures forall i :: 0 <= i < |results| ==> Reports(d, urls[i], attempts[i], results[i])
    ensures successfulURLs == SucceededURLs(results)
    ensures d.rateLimit != "" && Downloader.ParseRateLimit(d.rateLimit).err.Some? ==> successfulURLs == []
  {
    sizes := GetContentSizes(attempts);
    results := [];
    successfulURLs := [];
    if d.concurrency <= 0 {
      return;
    }
    for i := 0 to |urls|
      invariant |results| == i
      invariant forall j :: 0 <= j < i ==> Reports(d, urls[j], attempts[j], results[j])
      invariant successfulURLs == SucceededURLs(results)
    {
      var result := Work(d, urls[i], attempts[i]);
      if result.error.None? {
        successfulURLs := successfulURLs + [result.url];
      }
      SucceededURLsAppend(results, result);
      results := results + [result];
    }
    if d.rateLimit != "" && Downloader.ParseRateLimit(d.rateLimit).err.Some? {
      assert forall j :: 0 <= j < |results| ==> Reports(d, urls[j], attempts[j], results[j]);
      NoneSucceeded(results);
    }
  }
}
