/** The rate-limited reader of downloadutils/ratelimit.go. Time is an
    integer count of nanoseconds kept by a `Clock` object: reading the time
    reads `now`, sleeping advances it. The reader underneath is the response
    body, whose short reads and failures are an input. */
module RateLimit {
  import opened GoLib

  class Clock {
    var now: int

    constructor (start: int)
      ensures now == start
    {
      now := start;
    }

    /** time.Sleep: a duration of zero or less returns at once. */
    method Sleep(d: int)
      modifies this
      ensures now == old(now) + (if d > 0 then d else 0)
    {
      if d > 0 {
        now := now + d;
      }
    }
  }

  datatype IOError = EOF | Failed

  /** What the network does on one call of the body's Read: at most `cap`
      bytes arrive, or, when `fail` is set, the call fails. */
  datatype Delivery = Delivery(cap: nat, fail: bool)

  /** The behaviour of the next call; once the script is spent, every call
      gets all the bytes it asks for that are left. */
  function Next(script: seq<Delivery>, size: nat): Delivery {
    if script == [] then Delivery(size, false) else script[0]
  }

  /** The count and error a call of the body's Read returns. */
  function Delivered(data: seq<bv8>, d: Delivery, size: nat): (r: (nat, Option<IOError>))
    ensures r.0 <= size && r.0 <= |data| && r.0 <= d.cap
    ensures r.1.None? <==> !d.fail && data != []
    ensures r.1.None? ==> r.0 == Min(Min(size, d.cap), |data|)
    ensures r.1.Some? ==> r.0 == 0
  {
    if d.fail then (0, Some(Failed))
    else if data == [] then (0, Some(EOF))
    else (Min(Min(size, d.cap), |data|), None)
  }

  /** The response body: the bytes still to come and, as an input, how the
      network delivers them. With an empty script it is the in-memory reader
      of the package's tests, which fills every call and reports EOF once
      nothing is left. */
  class Body {
    var data: seq<bv8>
    var script: seq<Delivery>
    /** How many bytes the latest call was allowed to fill. */
    ghost var lastRequest: nat

    constructor (data: seq<bv8>, script: seq<Delivery>)
      ensures this.data == data && this.script == script
    {
      this.data := data;
      this.script := script;
      lastRequest := 0;
    }

    /** Read(p[:size]): copies the delivered bytes to the front of p. */
    method Read(p: array<bv8>, size: nat) returns (n: nat, err: Option<IOError>)
      requires size <= p.Length
      modifies this, p
      ensures lastRequest == size
      ensures (n, err) == Delivered(old(data), Next(old(script), size), size)
      ensures script == if old(script) == [] then [] else old(script)[1..]
      ensures p[..n] == old(data)[..n] && data == old(data)[n..]
      ensures p[n..] == old(p[n..])
    {
      lastRequest := size;
      var d := Next(script, size);
      if script != [] {
        script := script[1..];
      }
      if d.fail {
        return 0, Some(Failed);
      }
      if data == [] {
        return 0, Some(EOF);
      }
      n := Min(Min(size, d.cap), |data|);
      for i := 0 to n
        modifies p
        invariant n <= p.Length && n <= |data|
        invariant p[..i] == data[..i]
        invariant p[n..] == old(p[n..])
      {
        p[i] := data[i];
      }
      data := data[n..];
      err := None;
    }
  }

  /** The bytes the elapsed time allows at the given rate, at most one
      window's worth. */
  function Allowed(elapsed: int, rate: int): (r: int)
    requires elapsed >= 0 && rate > 0
  {
    Min(rate, elapsed * rate / Second)
  }

  lemma {:induction false} AllowedBounds(elapsed: int, rate: int)
    requires elapsed >= 0 && rate > 0
    ensures 0 <= Allowed(elapsed, rate) <= rate
    ensures elapsed >= Second ==> Allowed(elapsed, rate) == rate
  {
    assert elapsed * rate >= 0;
    if elapsed >= Second {
      assert elapsed * rate >= Second * rate;
      assert (Second * rate) / Second == rate;
    }
  }

  /** The quota a call of Read works with: the bytes of the current window
      that count against it, the bytes it may still read, and whether it
      had to wait for a new window first. */
  datatype Grant = Grant(carried: int, quota: int, waited: bool)

  function Admit(elapsed: int, bytesRead: int, rate: int): Grant
    requires elapsed >= 0 && rate > 0
  {
    var allowed := Allowed(elapsed, rate);
    var carried := if elapsed >= Second then 0 else bytesRead;
    if allowed - carried <= 0 then Grant(0, rate, true)
    else Grant(carried, allowed - carried, false)
  }

  /** The quota is positive and, with what the window already holds, never
      more than the rate; a full window since the last read starts afresh
      without waiting; a wait happens exactly when the window's allowance is
      used up. */
  lemma {:induction false} AdmitBounds(elapsed: int, bytesRead: int, rate: int)
    requires elapsed >= 0 && rate > 0 && 0 <= bytesRead <= rate
    ensures var g := Admit(elapsed, bytesRead, rate);
      && 0 < g.quota && 0 <= g.carried && g.carried + g.quota <= rate
      && (elapsed >= Second ==> g == Grant(0, rate, false))
      && (g.waited <==> elapsed < Second && Allowed(elapsed, rate) <= bytesRead)
      && (g.waited ==> g == Grant(0, rate, true))
  {
    AllowedBounds(elapsed, rate);
  }

  class RateLimitedReader {
    var reader: Body
    var rateLimit: int
    var lastRead: int
    var bytesRead: int
    var timeWindow: int

    /** The rate is positive, the window one second, and the current
        window never holds more bytes than the rate. */
    predicate Valid()
      reads this
    {
      rateLimit > 0 && timeWindow == Second && 0 <= bytesRead <= rateLimit
    }

    /** NewRateLimitedReader. */
    constructor (reader: Body, rateLimit: int, clock: Clock)
      requires rateLimit > 0
      ensures Valid()
      ensures this.reader == reader && this.rateLimit == rateLimit
      ensures bytesRead == 0 && lastRead == clock.now && timeWindow == Second
    {
      this.reader := reader;
      this.rateLimit := rateLimit;
      lastRead := clock.now;
      bytesRead := 0;
      timeWindow := Second;
    }

    method Read(p: array<bv8>, clock: Clock) returns (n: nat, err: Option<IOError>)
      requires Valid() && lastRead <= clock.now
      modifies this, reader, p, clock
      ensures Valid() && reader == old(reader) && rateLimit == old(rateLimit)
      ensures var g := Admit(old(clock.now) - old(lastRead), old(bytesRead), rateLimit);
        && reader.lastRequest == Min(p.Length, g.quota)
        && bytesRead == g.carried + n
        && (g.waited ==> clock.now >= old(lastRead) + Second)
      ensures n <= p.Length && n <= rateLimit
      ensures (n, err) == Delivered(old(reader.data), Next(old(reader.script), reader.lastRequest), reader.lastRequest)
      ensures reader.script == if old(reader.script) == [] then [] else old(reader.script)[1..]
      ensures p[..n] == old(reader.data)[..n] && reader.data == old(reader.data)[n..]
      ensures clock.now >= old(lastRead) + n * Second / rateLimit
      ensures lastRead == clock.now >= old(clock.now)
    {
      var now := clock.now;
      var elapsed := now - lastRead;
      AdmitBounds(elapsed, bytesRead, rateLimit);
      ghost var g := Admit(elapsed, bytesRead, rateLimit);

      var allowedBytes := elapsed * rateLimit / Second;
      if allowedBytes > rateLimit {
        allowedBytes := rateLimit;
      }
      assert allowedBytes == Allowed(elapsed, rateLimit);

      if elapsed >= timeWindow {
        bytesRead := 0;
        lastRead := now;
      }

      var remainingQuota := allowedBytes - bytesRead;
      if remainingQuota <= 0 {
        clock.Sleep(timeWindow - elapsed);
        bytesRead := 0;
        lastRead := clock.now;
        remainingQuota := rateLimit;
      }
      assert remainingQuota == g.quota && bytesRead == g.carried;

      var readSize := p.Length;
      if readSize > remainingQuota {
        readSize := remainingQuota;
      }

      n, err := reader.Read(p, readSize);
      bytesRead := bytesRead + n;

      var expectedReadDuration := n * Second / rateLimit;
      var timeTaken := clock.now - lastRead;
      if timeTaken < expectedReadDuration {
        clock.Sleep(expectedReadDuration - timeTaken);
      }

      lastRead := clock.now;
    }
  }

  /** The "exceed rate limit" case of the package's tests: at 5 bytes per
      second, a ten-byte read of "HelloWorld" a second after the reader was
      made returns only "Hello". */
  method ExceedRateLimit() returns (n: nat, got: seq<bv8>)
    ensures n == 5 && got == [72, 101, 108, 108, 111]
  {
    var data: seq<bv8> := [72, 101, 108, 108, 111, 87, 111, 114, 108, 100];
    var clock := new Clock(0);
    var source := new Body(data, []);
    var limited := new RateLimitedReader(source, 5, clock);
    clock.Sleep(Second);
    var p := new bv8[10];
    var err;
    n, err := limited.Read(p, clock);
    got := p[..n];
  }

  /** A body that delivers fewer bytes than asked, then fails: at 5 bytes per
      second, the first read returns only the 2 bytes that arrived, and the
      next read passes the failure on. */
  method ShortBodyRead() returns (first: seq<bv8>, err: Option<IOError>, left: nat)
    ensures first == [72, 101] && err == Some(Failed) && left == 8
  {
    var data: seq<bv8> := [72, 101, 108, 108, 111, 87, 111, 114, 108, 100];
    var clock := new Clock(0);
    var source := new Body(data, [Delivery(2, false), Delivery(10, true)]);
    var limited := new RateLimitedReader(source, 5, clock);
    clock.Sleep(Second);
    var p := new bv8[10];
    var n, e := limited.Read(p, clock);
    first := p[..n];
    var m;
    m, err := limited.Read(p, clock);
    left := |source.data|;
  }
}
