/** The progress display of models/progress.go: the duration and size
    formatters, the two bar shapes and the Progress tracker. Durations are
    integer nanoseconds, the current time is passed in by the caller, and
    what the tracker prints is collected in a sequence of lines. */
module Progress {
  import opened GoLib

  // ----------------------------------------------------------- durations

  /** %02d of a value below 100. */
  function Pad2(v: nat): (s: string)
    requires v < 100
    ensures |s| == 2 && AllDigits(s) && DigitsValue(s) == v
  {
    var s := [DigitChar(v / 10), DigitChar(v % 10)];
    assert s[..1] == [DigitChar(v / 10)] && s[..1][..0] == [];
    assert DigitsValue(s[..1]) == DigitValue(s[0]);
    assert DigitsValue(s) == DigitsValue(s[..1]) * 10 + DigitValue(s[1]);
    s
  }

  /** formatDuration: "< 1s" below one second, else hours, minutes and
      seconds, the leading unit unpadded and the others on two digits. */
  function FormatDuration(d: int): string {
    if d < Second then "< 1s"
    else
      var hours := d / Hour;
      var minutes := (d / Minute) % 60;
      var seconds := (d / Second) % 60;
      if hours > 0 then Itoa(hours) + "h" + Pad2(minutes) + "m" + Pad2(seconds) + "s"
      else if minutes > 0 then Itoa(minutes) + "m" + Pad2(seconds) + "s"
      else Itoa(seconds) + "s"
  }

  /** A number followed by the letter of its unit. */
  datatype Field = Field(value: nat, unit: char)

  /** Reads a string made of numbers each followed by one non-digit rune. */
  function Fields(s: string): Option<seq<Field>>
    decreases |s|
  {
    if s == [] then Some([])
    else
      var d := LeadingDigits(s);
      if d == [] || |d| == |s| then None
      else
        match Fields(s[|d| + 1..])
        case None => None
        case Some(rest) => Some([Field(DigitsValue(d), s[|d|])] + rest)
  }

  /** Reads a duration written as formatDuration writes it back into whole
      seconds; anything else, "< 1s" included, is None. */
  function ReadDuration(s: string): Option<int> {
    match Fields(s)
    case None => None
    case Some(fs) =>
      if |fs| == 3 && fs[0].unit == 'h' && fs[1].unit == 'm' && fs[2].unit == 's' then
        Some(fs[0].value * 3600 + fs[1].value * 60 + fs[2].value)
      else if |fs| == 2 && fs[0].unit == 'm' && fs[1].unit == 's' then
        Some(fs[0].value * 60 + fs[1].value)
      else if |fs| == 1 && fs[0].unit == 's' then
        Some(fs[0].value)
      else None
  }

  /** A number and its unit letter in front of a string add one field. */
  lemma {:induction false} FieldsCons(d: string, c: char, rest: string)
    requires d != [] && AllDigits(d) && !IsDigit(c)
    ensures Fields(d + [c] + rest) ==
      match Fields(rest)
      case None => None
      case Some(fs) => Some([Field(DigitsValue(d), c)] + fs)
  {
    var s := d + [c] + rest;
    LeadingDigitsOf(d, c, rest);
    assert s[|d|] == c;
    assert s[|d| + 1..] == rest;
  }

  /** The whole seconds of a duration, split as formatDuration splits them. */
  lemma {:induction false} DurationParts(d: int)
    requires d >= Second
    ensures d / Hour * 3600 + (d / Minute) % 60 * 60 + (d / Second) % 60 == d / Second
    ensures d / Hour == 0 ==> (d / Minute) % 60 == d / Minute
    ensures d / Hour == 0 ==> (d / Minute) % 60 * 60 + (d / Second) % 60 == d / Second
    ensures d / Minute == 0 ==> (d / Second) % 60 == d / Second
  {
    var t := d / Second;
    assert d / Minute == t / 60;
    assert d / Hour == t / 3600;
    assert t / 3600 == (t / 60) / 60;
  }

  /** The fields of a whole formatted duration, read off unit by unit. */
  lemma {:induction false} FieldsOfSeconds(sec: nat)
    requires sec < 100
    ensures Fields(Pad2(sec) + ['s'] + []) == Some([Field(sec, 's')])
  {
    var d := Pad2(sec);
    assert DigitsValue(d) == sec;
    assert Fields([]) == Some([]);
    FieldsCons(d, 's', []);
    assert [Field(sec, 's')] + [] == [Field(sec, 's')];
  }

  lemma {:induction false} FieldsOfMinutesSeconds(m: nat, sec: nat)
    requires m < 100 && sec < 100
    ensures Fields(Pad2(m) + ['m'] + (Pad2(sec) + ['s'] + [])) == Some([Field(m, 'm'), Field(sec, 's')])
  {
    var d := Pad2(m);
    assert DigitsValue(d) == m;
    FieldsOfSeconds(sec);
    var rest := Pad2(sec) + ['s'] + [];
    FieldsCons(d, 'm', rest);
    assert Fields(rest) == Some([Field(sec, 's')]);
    assert [Field(m, 'm')] + [Field(sec, 's')] == [Field(m, 'm'), Field(sec, 's')];
  }

  /** The three shapes ReadDuration accepts, once the fields are known. */
  lemma {:induction false} ReadThreeFields(s: string, h: nat, m: nat, sec: nat)
    requires Fields(s) == Some([Field(h, 'h'), Field(m, 'm'), Field(sec, 's')])
    ensures ReadDuration(s) == Some(h * 3600 + m * 60 + sec)
  {
  }

  lemma {:induction false} ReadTwoFields(s: string, m: nat, sec: nat)
    requires Fields(s) == Some([Field(m, 'm'), Field(sec, 's')])
    ensures ReadDuration(s) == Some(m * 60 + sec)
  {
  }

  /** The formatted text, regrouped unit by unit from the right. */
  lemma {:induction false} RegroupThree(a: string, b: string, c: string)
    ensures a + "h" + b + "m" + c + "s" == a + ['h'] + (b + ['m'] + (c + ['s'] + []))
  {
  }

  lemma {:induction false} RegroupTwo(a: string, b: string)
    ensures a + "m" + b + "s" == a + ['m'] + (b + ['s'] + [])
  {
  }

  lemma {:induction false} ReadHoursMinutesSeconds(h: nat, m: nat, sec: nat)
    requires m < 100 && sec < 100
    ensures ReadDuration(Itoa(h) + "h" + Pad2(m) + "m" + Pad2(sec) + "s") == Some(h * 3600 + m * 60 + sec)
  {
    DigitsValueItoa(h);
    var q := Pad2(m) + ['m'] + (Pad2(sec) + ['s'] + []);
    FieldsOfMinutesSeconds(m, sec);
    FieldsCons(Itoa(h), 'h', q);
    RegroupThree(Itoa(h), Pad2(m), Pad2(sec));
    var s := Itoa(h) + "h" + Pad2(m) + "m" + Pad2(sec) + "s";
    assert [Field(h, 'h')] + [Field(m, 'm'), Field(sec, 's')] == [Field(h, 'h'), Field(m, 'm'), Field(sec, 's')];
    ReadThreeFields(s, h, m, sec);
  }

  lemma {:induction false} ReadMinutesSeconds(m: nat, sec: nat)
    requires sec < 100
    ensures ReadDuration(Itoa(m) + "m" + Pad2(sec) + "s") == Some(m * 60 + sec)
  {
    DigitsValueItoa(m);
    var p := Pad2(sec) + ['s'] + [];
    FieldsOfSeconds(sec);
    FieldsCons(Itoa(m), 'm', p);
    RegroupTwo(Itoa(m), Pad2(sec));
    var s := Itoa(m) + "m" + Pad2(sec) + "s";
    assert [Field(m, 'm')] + [Field(sec, 's')] == [Field(m, 'm'), Field(sec, 's')];
    ReadTwoFields(s, m, sec);
  }

  lemma {:induction false} ReadSeconds(sec: nat)
    ensures ReadDuration(Itoa(sec) + "s") == Some(sec)
  {
    DigitsValueItoa(sec);
    assert Fields([]) == Some([]);
    FieldsCons(Itoa(sec), 's', []);
    assert Itoa(sec) + "s" == Itoa(sec) + ['s'] + [];
  }

  /** formatDuration loses only the fraction of a second: reading its
      output back gives the whole seconds of every duration of at least one
      second. */
  lemma {:induction false} ReadFormatDuration(d: int)
    requires d >= Second
    ensures ReadDuration(FormatDuration(d)) == Some(d / Second)
  {
    var hours := d / Hour;
    var minutes := (d / Minute) % 60;
    var seconds := (d / Second) % 60;
    var total := d / Second;
    DurationParts(d);
    if hours > 0 {
      assert FormatDuration(d) == Itoa(hours) + "h" + Pad2(minutes) + "m" + Pad2(seconds) + "s";
      ReadHoursMinutesSeconds(hours, minutes, seconds);
      assert hours * 3600 + minutes * 60 + seconds == total;
    } else if minutes > 0 {
      assert FormatDuration(d) == Itoa(minutes) + "m" + Pad2(seconds) + "s";
      ReadMinutesSeconds(minutes, seconds);
      assert minutes * 60 + seconds == total;
    } else {
      assert FormatDuration(d) == Itoa(seconds) + "s";
      ReadSeconds(seconds);
      assert seconds == total;
    }
  }

  /** Every duration below one second, negative ones included, is "< 1s",
      and no longer duration is. */
  lemma {:induction false} FormatDurationShort(d: int)
    ensures FormatDuration(d) == "< 1s" <==> d < Second
  {
    if d >= Second {
      ReadFormatDuration(d);
      assert Fields("< 1s") == None;
    }
  }

  /** The cases of the package's own tests. */
  lemma {:induction false} FormatDurationExamples()
    ensures FormatDuration(500 * Millisecond) == "< 1s"
    ensures FormatDuration(5 * Second) == "5s"
    ensures FormatDuration(150 * Second) == "2m30s"
  {
    var d := 150 * Second;
    assert d / Hour == 0 && (d / Minute) % 60 == 2 && (d / Second) % 60 == 30;
    assert (5 * Second) / Hour == 0 && (5 * Second) / Minute == 0 && (5 * Second) / Second == 5;
    assert Itoa(5) == "5" && Itoa(2) == "2" && Pad2(30) == "30";
  }

  /** Minutes and seconds are padded to two digits after the hours. */
  lemma {:induction false} FormatDurationHours()
    ensures FormatDuration(3725 * Second) == "1h02m05s"
  {
    var d := 3725 * Second;
    assert d / Hour == 1 && (d / Minute) % 60 == 2 && (d / Second) % 60 == 5;
    assert Itoa(1) == "1" && Pad2(2) == "02" && Pad2(5) == "05";
  }

  // --------------------------------------------------------------- sizes

  function Pow1024(k: nat): (p: nat)
    ensures p >= 1
  {
    if k == 0 then 1 else 1024 * Pow1024(k - 1)
  }

  /** How many times a number at least 1024 can be divided by 1024 before
      it drops below 1024. */
  function Steps(n: int): nat
    decreases n
  {
    if n < 1024 then 0 else 1 + Steps(n / 1024)
  }

  /** The exponent formatSize settles on for a size of at least 1024. */
  function SizeExponent(bytes: int): nat {
    Steps(bytes / 1024)
  }

  lemma {:induction false} StepsBounds(n: int)
    requires n >= 1
    ensures Pow1024(Steps(n)) <= n < Pow1024(Steps(n) + 1)
    decreases n
  {
    if n >= 1024 {
      StepsBounds(n / 1024);
    }
  }

  /** The exponent is the k with 1024^(k+1) <= bytes < 1024^(k+2). */
  lemma {:induction false} SizeExponentRange(bytes: int, k: nat)
    requires Pow1024(k + 1) <= bytes < Pow1024(k + 2)
    ensures SizeExponent(bytes) == k
  {
    StepsExactly(bytes / 1024, k);
  }

  lemma {:induction false} StepsExactly(n: int, k: nat)
    requires Pow1024(k) <= n < Pow1024(k + 1)
    ensures Steps(n) == k
    decreases k
  {
    if k > 0 {
      StepsExactly(n / 1024, k - 1);
    }
  }

  /** What formatSize prints: "<n> B" below 1024, otherwise the size over
      the divisor with one decimal (not modelled) and the unit. */
  datatype SizeText = Exact(text: string) | Fraction(bytes: int, div: int, unit: string)

  const UnitLettersAsWritten: string := "KMG"
  const UnitLetters: string := "KMGTPE"

  /** The loop of formatSize: the divisor and exponent for a size of at
      least 1024, with the divisor the largest power of 1024 not above it. */
  method SizeScale(bytes: int) returns (div: int, exp: nat)
    requires bytes >= 1024
    ensures exp == SizeExponent(bytes) && div == Pow1024(exp + 1)
    ensures div <= bytes < 1024 * div
  {
    div, exp := 1024, 0;
    var n := bytes / 1024;
    while n >= 1024
      invariant n >= 1
      invariant exp + Steps(n) == SizeExponent(bytes)
      invariant div == Pow1024(exp + 1)
      decreases n
    {
      div := div * 1024;
      exp := exp + 1;
      n := n / 1024;
    }
    StepsBounds(bytes / 1024);
  }

  /** formatSize as the source has it: the unit letter comes from "KMG",
      so from 1024^4 bytes on the index is out of range and the program
      panics (None). */
  method FormatSizeAsWritten(bytes: int) returns (r: Option<SizeText>)
    ensures bytes < 1024 ==> r == Some(Exact(FormatInt(bytes) + " B"))
    ensures bytes >= 1024 ==> (r.None? <==> SizeExponent(bytes) >= |UnitLettersAsWritten|)
    ensures bytes >= 1024 && r.Some? ==>
      r.value == Fraction(bytes, Pow1024(SizeExponent(bytes) + 1),
                          [UnitLettersAsWritten[SizeExponent(bytes)]] + "iB")
  {
    if bytes < 1024 {
      return Some(Exact(FormatInt(bytes) + " B"));
    }
    var div, exp := SizeScale(bytes);
    if exp >= |UnitLettersAsWritten| {
      return None;
    }
    return Some(Fraction(bytes, div, [UnitLettersAsWritten[exp]] + "iB"));
  }

  /** One tebibyte already has exponent 3, past the end of "KMG". */
  lemma {:induction false} FormatSizeAsWrittenPanics(bytes: int)
    requires Pow1024(4) <= bytes < Pow1024(5)
    ensures bytes >= 1024 && SizeExponent(bytes) == |UnitLettersAsWritten|
  {
    SizeExponentRange(bytes, 3);
  }

  /** Every int64 size stays within "KMGTPE". */
  lemma {:induction false} SizeExponentInt64(bytes: int)
    requires 1024 <= bytes <= Int64Max
    ensures SizeExponent(bytes) < |UnitLetters|
  {
    StepsBounds(bytes / 1024);
    if SizeExponent(bytes) >= 6 {
      PowMonotone(6, SizeExponent(bytes));
    }
  }

  lemma {:induction false} PowMonotone(j: nat, k: nat)
    requires j <= k
    ensures Pow1024(j) <= Pow1024(k)
    decreases k
  {
    if j < k {
      PowMonotone(j, k - 1);
    }
  }

  /** What the corrected formatSize prints for an int64 size. */
  function SizeLabel(bytes: int): (r: SizeText)
    requires bytes <= Int64Max
    ensures r.Exact? <==> bytes < 1024
    ensures r.Fraction? ==> r.bytes == bytes && r.div <= bytes < 1024 * r.div && |r.unit| == 3
  {
    if bytes < 1024 then Exact(FormatInt(bytes) + " B")
    else
      SizeExponentInt64(bytes);
      StepsBounds(bytes / 1024);
      var exp := SizeExponent(bytes);
      Fraction(bytes, Pow1024(exp + 1), [UnitLetters[exp]] + "iB")
  }

  /** formatSize with the unit table running to exbibytes: every int64
      size gets a unit, and the divisor is the largest power of 1024 not
      above the size. */
  method FormatSize(bytes: int) returns (r: SizeText)
    requires bytes <= Int64Max
    ensures r == SizeLabel(bytes)
    ensures bytes < 1024 ==> r == Exact(FormatInt(bytes) + " B")
    ensures bytes >= 1024 ==>
      && SizeExponent(bytes) < |UnitLetters|
      && r == Fraction(bytes, Pow1024(SizeExponent(bytes) + 1),
                       [UnitLetters[SizeExponent(bytes)]] + "iB")
      && r.div <= bytes < 1024 * r.div
  {
    if bytes < 1024 {
      return Exact(FormatInt(bytes) + " B");
    }
    var div, exp := SizeScale(bytes);
    SizeExponentInt64(bytes);
    return Fraction(bytes, div, [UnitLetters[exp]] + "iB");
  }

  /** Below 1 TiB the corrected table agrees with the source's. */
  lemma {:induction false} UnitLettersAgree(bytes: int)
    requires 1024 <= bytes < Pow1024(4)
    ensures SizeExponent(bytes) < |UnitLettersAsWritten|
    ensures UnitLetters[SizeExponent(bytes)] == UnitLettersAsWritten[SizeExponent(bytes)]
  {
    StepsBounds(bytes / 1024);
    if SizeExponent(bytes) >= 3 {
      PowMonotone(3, SizeExponent(bytes));
    }
  }

  // ---------------------------------------------------------------- bars

  const BarWidth: int := 40

  /** The bar for an unknown total: dashes with a '>' that moves one cell
      per KiB received and wraps around. */
  function CursorBar(current: int): (bar: string)
    requires current >= 0
    ensures |bar| == BarWidth
    ensures forall i :: 0 <= i < BarWidth ==>
      (bar[i] == '>' <==> i == (current / 1024) % BarWidth) && (bar[i] == '>' || bar[i] == '-')
  {
    var pos := (current / 1024) % BarWidth;
    var bar := Repeat('-', pos) + ">" + Repeat('-', BarWidth - pos - 1);
    assert forall i :: 0 <= i < pos ==> bar[i] == '-';
    assert forall i :: pos < i < BarWidth ==> bar[i] == Repeat('-', BarWidth - pos - 1)[i - pos - 1];
    bar
  }

  /** The cursor moves one cell for each further KiB, wrapping at the end. */
  lemma {:induction false} CursorAdvances(current: int)
    requires current >= 0
    ensures ((current + 1024) / 1024) % BarWidth == ((current / 1024) % BarWidth + 1) % BarWidth
  {
    assert (current + 1024) / 1024 == current / 1024 + 1;
  }

  /** The '=' cells of the bar for a known total. */
  function Completed(current: int, total: int): (c: int)
    requires current >= 0 && total > 0
  {
    Min(BarWidth, BarWidth * current / total)
  }

  lemma {:induction false} CompletedBounds(current: int, total: int)
    requires current >= 0 && total > 0
    ensures 0 <= Completed(current, total) <= BarWidth
    ensures current >= total ==> Completed(current, total) == BarWidth
  {
    var q := BarWidth * current / total;
    DivMonotone(0, BarWidth * current, total);
    if current >= total {
      DivMonotone(BarWidth * total, BarWidth * current, total);
      WidthDiv(total);
    }
  }

  lemma {:induction false} WidthDiv(t: int)
    requires t > 0
    ensures BarWidth * t / t == BarWidth
  {
  }

  lemma {:induction false} MulCancel(t: int, x: int, y: int)
    requires t > 0 && t * x < t * y
    ensures x < y
  {
    assert t * (y - x) == t * y - t * x;
  }

  /** Integer division by a positive divisor is monotone. */
  lemma {:induction false} DivMonotone(a: int, b: int, t: int)
    requires 0 <= a <= b && t > 0
    ensures a / t <= b / t
  {
    var qa, qb := a / t, b / t;
    assert t * qa <= a;
    assert b < t * qb + t;
    assert t * qb + t == t * (qb + 1);
    MulCancel(t, qa, qb + 1);
  }

  /** The bar for a known total: `Completed` '=' cells, then dashes. */
  function FilledBar(current: int, total: int): (bar: string)
    requires current >= 0 && total > 0
    ensures |bar| == BarWidth
    ensures forall i :: 0 <= i < BarWidth ==>
      (bar[i] == '=' <==> i < Completed(current, total)) && (bar[i] == '=' || bar[i] == '-')
  {
    CompletedBounds(current, total);
    var completed := Completed(current, total);
    Repeat('=', completed) + Repeat('-', BarWidth - completed)
  }

  /** More bytes never shrink the filled part of the bar, and a complete
      download fills it. */
  lemma {:induction false} FilledBarMonotone(c1: int, c2: int, total: int)
    requires 0 <= c1 <= c2 && total > 0
    ensures Completed(c1, total) <= Completed(c2, total)
    ensures Completed(total, total) == BarWidth
  {
    DivMonotone(BarWidth * c1, BarWidth * c2, total);
    CompletedBounds(total, total);
  }

  // ------------------------------------------------------------- tracker

  /** One line the tracker prints: a progress frame (the bar, the bytes
      received, the total when it is known, the time since the start) or
      the closing "Total time" line. */
  datatype Line =
    | Frame(bar: string, received: SizeText, total: Option<SizeText>, elapsed: string)
    | Summary(totalTime: string)

  /** The frame printProgress prints: the moving cursor when the total is
      unknown, the filled bar and the total's size otherwise. */
  function FrameOf(current: int, total: int, elapsed: int): (l: Line)
    requires 0 <= current <= Int64Max && total <= Int64Max
    ensures l.Frame? && |l.bar| == BarWidth && l.received == SizeLabel(current)
    ensures l.total.Some? <==> total > 0
    ensures l.elapsed == FormatDuration(elapsed)
  {
    if total <= 0 then Frame(CursorBar(current), SizeLabel(current), None, FormatDuration(elapsed))
    else Frame(FilledBar(current, total), SizeLabel(current), Some(SizeLabel(total)), FormatDuration(elapsed))
  }

  /** Frames are printed at most every 100 milliseconds. */
  const PrintInterval: int := 100 * Millisecond

  /** The tracker wrapped around a download's output: it counts the bytes
      written through it and prints a frame when enough time has passed. */
  class Progress {
    var total: int
    var current: int
    var lastPrint: int
    var started: int
    var width: int
    var lastBytes: int
    var lastTime: int
    /** What has been printed so far. */
    var lines: seq<Line>

    /** The counter stays a non-negative int64, the bytes already
        accounted for by the speed never pass it, and every frame printed
        is exactly one bar wide. */
    ghost predicate Valid()
      reads this
    {
      && width == BarWidth
      && total <= Int64Max
      && 0 <= lastBytes <= current <= Int64Max
      && forall i :: 0 <= i < |lines| && lines[i].Frame? ==> |lines[i].bar| == width
    }

    /** NewProgress, started at the time `now`. */
    constructor(total: int, now: int)
      requires total <= Int64Max
      ensures Valid()
      ensures this.total == total && current == 0 && width == BarWidth
      ensures lastPrint == now && started == now && lastTime == now
      ensures lastBytes == 0 && lines == []
    {
      this.total := total;
      current := 0;
      lastPrint := now;
      started := now;
      lastTime := now;
      width := BarWidth;
      lastBytes := 0;
      lines := [];
    }

    /** Write: every byte is accepted and counted; a frame is printed when
        at least 100 ms passed since the last one. */
    method Write(b: seq<bv8>, now: int) returns (n: int)
      requires Valid() && current + |b| <= Int64Max
      modifies this
      ensures Valid()
      ensures n == |b| && current == old(current) + |b|
      ensures total == old(total) && started == old(started)
      ensures now - old(lastPrint) >= PrintInterval ==>
        && lines == old(lines) + [FrameOf(current, total, now - started)]
        && lastPrint == now && lastBytes == current && lastTime == now
      ensures now - old(lastPrint) < PrintInterval ==>
        && lines == old(lines) && lastPrint == old(lastPrint)
        && lastBytes == old(lastBytes) && lastTime == old(lastTime)
    {
      n := |b|;
      current := current + n;
      if now - lastPrint >= PrintInterval {
        PrintProgress(now);
        lastPrint := now;
      }
    }

    /** Start: restarts the clocks and prints the first frame. */
    method Start(now: int)
      requires Valid()
      modifies this
      ensures Valid()
      ensures started == now && lastTime == now && lastBytes == current
      ensures current == old(current) && total == old(total) && lastPrint == old(lastPrint)
      ensures lines == old(lines) + [FrameOf(current, total, 0)]
    {
      started := now;
      lastTime := now;
      PrintProgress(now);
    }

    /** Stop: a last frame, then the total time since the start. */
    method Stop(now: int)
      requires Valid()
      modifies this
      ensures Valid()
      ensures current == old(current) && total == old(total) && started == old(started)
      ensures lastPrint == old(lastPrint) && lastBytes == current && lastTime == now
      ensures lines == old(lines) + [FrameOf(current, total, now - started),
                                     Summary(FormatDuration(now - started))]
    {
      PrintProgress(now);
      lines := lines + [Summary(FormatDuration(now - started))];
    }

    /** calculateSpeed without the floating-point division: the bytes and
        the nanoseconds since the last measurement, which then restarts. */
    method CalculateSpeed(now: int) returns (bytesDiff: int, elapsed: int)
      requires Valid()
      modifies this
      ensures Valid()
      ensures 0 <= bytesDiff <= current
      ensures bytesDiff == old(current - lastBytes) && elapsed == now - old(lastTime)
      ensures lastBytes == current && lastTime == now
      ensures current == old(current) && total == old(total) && lines == old(lines)
      ensures started == old(started) && lastPrint == old(lastPrint)
    {
      bytesDiff := current - lastBytes;
      elapsed := now - lastTime;
      lastBytes := current;
      lastTime := now;
    }

    /** printProgress: measures the speed and prints one frame. */
    method PrintProgress(now: int)
      requires Valid()
      modifies this
      ensures Valid()
      ensures lines == old(lines) + [FrameOf(current, total, now - started)]
      ensures lastBytes == current && lastTime == now
      ensures current == old(current) && total == old(total)
      ensures started == old(started) && lastPrint == old(lastPrint)
    {
      var bytesDiff, sinceLast := CalculateSpeed(now);
      var elapsed := now - started;
      var received := FormatSize(current);
      var line;
      if total <= 0 {
        line := Frame(CursorBar(current), received, None, FormatDuration(elapsed));
      } else {
        var whole := FormatSize(total);
        line := Frame(FilledBar(current, total), received, Some(whole), FormatDuration(elapsed));
      }
      lines := lines + [line];
    }
  }
}
