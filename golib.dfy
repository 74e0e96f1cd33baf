/** Small models of the pieces of Go's standard library that the downloader
    relies on: int64 arithmetic, strconv.ParseInt and decimal formatting,
    the strings helpers (TrimSpace, Trim, TrimPrefix, Split, ToLower, Map)
    and path/filepath's Base and Join, with the binary size units that the
    rate-limit strings use. Strings are sequences of runes. */
module GoLib {

  datatype Option<+T> = None | Some(value: T)

  datatype Result<+T, +E> = Ok(value: T) | Err(error: E)

  /** Go's `(int64, error)` return pair: a value that is reported even when
      an error is present. */
  datatype IntAndError<+E> = IntAndError(value: int, err: Option<E>)

  // ---------------------------------------------------------------- int64

  const Int64Max: int := 0x7FFF_FFFF_FFFF_FFFF
  const Int64Min: int := -0x8000_0000_0000_0000
  const TwoTo64: int := 0x1_0000_0000_0000_0000
  const Uint64Max: int := 0xFFFF_FFFF_FFFF_FFFF

  predicate InInt64(x: int) {
    Int64Min <= x <= Int64Max
  }

  /** The int64 value Go's two's-complement arithmetic produces for the exact
      result `x`: the representative of x modulo 2^64 in the signed range. */
  function Wrap64(x: int): (r: int)
    ensures InInt64(r)
    ensures InInt64(x) ==> r == x
    ensures (r - x) % TwoTo64 == 0
  {
    (x - Int64Min) % TwoTo64 + Int64Min
  }

  function Min(a: int, b: int): int {
    if a < b then a else b
  }

  // ----------------------------------------------------------------- time

  /** time.Duration constants, in nanoseconds. */
  const Millisecond: int := 1000000
  const Second: int := 1000000000
  const Minute: int := 60000000000
  const Hour: int := 3600000000000

  /** The binary size units of the rate-limit strings: 1, 1024, 1024^2
      and 1024^3 bytes. */
  datatype Unit = Bytes | Kibi | Mebi | Gibi

  /** `rate * multiplier`, with the multiplier written out per unit. */
  function Scaled(rate: int, u: Unit): (r: int)
    ensures 0 < rate ==> rate <= r
    ensures rate == 0 <==> r == 0
    ensures rate < 0 ==> r < 0
  {
    match u
    case Bytes => rate
    case Kibi => rate * 1024
    case Mebi => rate * 1048576
    case Gibi => rate * 1073741824
  }

  // ----------------------------------------------------------- characters

  predicate IsDigit(c: char) {
    '0' <= c <= '9'
  }

  /** The ASCII white space that strings.TrimSpace removes. */
  predicate IsAsciiSpace(c: char) {
    c == ' ' || c == '\t' || c == '\n' || c == '\U{000B}' || c == '\U{000C}' || c == '\r'
  }

  predicate IsSlash(c: char) {
    c == '/'
  }

  predicate AllDigits(s: string) {
    forall i :: 0 <= i < |s| ==> IsDigit(s[i])
  }

  /** unicode.ToLower on the runes that can matter here: ASCII capitals, and
      the Kelvin sign, whose lower case is the ASCII letter 'k'. */
  function LowerRune(c: char): (r: char)
    ensures IsDigit(r) <==> IsDigit(c)
  {
    if 'A' <= c <= 'Z' then (c as int + 32) as char
    else if c == '\U{212A}' then 'k'
    else c
  }

  /** f applied to every element, keeping the length and order: strings.Map
      on the runes of a string, and the clean-up loops over a split list. */
  function MapEach<A, B>(xs: seq<A>, f: A -> B): (r: seq<B>)
    ensures |r| == |xs|
    ensures forall i :: 0 <= i < |xs| ==> r[i] == f(xs[i])
  {
    seq(|xs|, i requires 0 <= i < |xs| => f(xs[i]))
  }

  function ToLower(s: string): string {
    MapEach(s, LowerRune)
  }

  function Repeat(c: char, n: nat): (r: string)
    ensures |r| == n
    ensures forall i :: 0 <= i < n ==> r[i] == c
  {
    seq(n, _ => c)
  }

  // -------------------------------------------------------------- strings

  predicate HasPrefix(s: string, prefix: string) {
    |prefix| <= |s| && s[..|prefix|] == prefix
  }

  predicate HasSuffix(s: string, suffix: string) {
    |suffix| <= |s| && s[|s| - |suffix|..] == suffix
  }

  /** strings.TrimPrefix: removes one copy of the prefix if present. */
  function TrimPrefix(s: string, prefix: string): (r: string)
    ensures HasPrefix(s, prefix) ==> prefix + r == s
    ensures !HasPrefix(s, prefix) ==> r == s
  {
    if HasPrefix(s, prefix) then s[|prefix|..] else s
  }

  /** Drops the longest prefix whose runes all satisfy `drop`. */
  function TrimLeftWhile(s: string, drop: char -> bool): (r: string)
    ensures |r| <= |s|
  {
    if s != [] && drop(s[0]) then TrimLeftWhile(s[1..], drop) else s
  }

  /** Drops the longest suffix whose runes all satisfy `drop`. */
  function TrimRightWhile(s: string, drop: char -> bool): (r: string)
    ensures |r| <= |s|
  {
    if s != [] && drop(s[|s| - 1]) then TrimRightWhile(s[..|s| - 1], drop) else s
  }

  /** What TrimLeftWhile keeps is a suffix of the input, everything dropped
      satisfies `drop`, and the first rune kept does not. */
  lemma {:induction false} TrimLeftWhileShape(s: string, drop: char -> bool)
    ensures var r := TrimLeftWhile(s, drop);
      && r == s[|s| - |r|..]
      && (forall i :: 0 <= i < |s| - |r| ==> drop(s[i]))
      && (r == [] || !drop(r[0]))
  {
    if s != [] && drop(s[0]) {
      TrimLeftWhileShape(s[1..], drop);
      var r := TrimLeftWhile(s, drop);
      forall i | 0 <= i < |s| - |r|
        ensures drop(s[i])
      {
        if i > 0 {
          assert s[i] == s[1..][i - 1];
        }
      }
    }
  }

  /** What TrimRightWhile keeps is a prefix of the input, everything dropped
      satisfies `drop`, and the last rune kept does not. */
  lemma {:induction false} TrimRightWhileShape(s: string, drop: char -> bool)
    ensures var r := TrimRightWhile(s, drop);
      && r == s[..|r|]
      && (forall i :: |r| <= i < |s| ==> drop(s[i]))
      && (r == [] || !drop(r[|r| - 1]))
  {
    if s != [] && drop(s[|s| - 1]) {
      var init := s[..|s| - 1];
      TrimRightWhileShape(init, drop);
      var r := TrimRightWhile(s, drop);
      assert r == init[..|r|];
      forall i | |r| <= i < |s|
        ensures drop(s[i])
      {
        if i < |s| - 1 {
          assert s[i] == init[i];
        }
      }
    }
  }

  /** strings.TrimSpace over ASCII white space. */
  function TrimSpace(s: string): string {
    TrimRightWhile(TrimLeftWhile(s, IsAsciiSpace), IsAsciiSpace)
  }

  /** strings.Trim(s, "/"): every leading and trailing slash removed. */
  function TrimSlashes(s: string): string {
    TrimRightWhile(TrimLeftWhile(s, IsSlash), IsSlash)
  }

  /** Removing from both ends leaves a contiguous piece of the input with
      nothing removable at either end. */
  lemma {:induction false} TrimBothEnds(s: string, drop: char -> bool)
    ensures var l := TrimLeftWhile(s, drop);
      var r := TrimRightWhile(l, drop);
      && r == s[|s| - |l|..|s| - |l| + |r|]
      && (r == [] || (!drop(r[0]) && !drop(r[|r| - 1])))
  {
    var l := TrimLeftWhile(s, drop);
    var r := TrimRightWhile(l, drop);
    TrimLeftWhileShape(s, drop);
    TrimRightWhileShape(l, drop);
    if r != [] {
      assert r[0] == l[0];
    }
  }

  /** A string with nothing removable at either end is left alone. */
  lemma {:induction false} TrimBothEndsNone(s: string, drop: char -> bool)
    requires s == [] || (!drop(s[0]) && !drop(s[|s| - 1]))
    ensures TrimRightWhile(TrimLeftWhile(s, drop), drop) == s
  {
  }

  function Count(s: string, c: char): (n: nat)
    ensures n <= |s|
  {
    if s == [] then 0 else (if s[0] == c then 1 else 0) + Count(s[1..], c)
  }

  /** strings.Split with a one-rune separator. */
  function Split(s: string, sep: char): (parts: seq<string>)
    ensures |parts| >= 1
  {
    if s == [] then [""]
    else
      var rest := Split(s[1..], sep);
      if s[0] == sep then [""] + rest else [[s[0]] + rest[0]] + rest[1..]
  }

  /** strings.Join with a one-rune separator. */
  function JoinWith(parts: seq<string>, sep: char): string
    requires |parts| >= 1
  {
    if |parts| == 1 then parts[0] else parts[0] + [sep] + JoinWith(parts[1..], sep)
  }

  /** strings.Split gives one piece more than there are separators, no
      piece holds the separator, and joining the pieces gives the string
      back. */
  lemma {:induction false} SplitShape(s: string, sep: char)
    ensures |Split(s, sep)| == Count(s, sep) + 1
    ensures forall i :: 0 <= i < |Split(s, sep)| ==> sep !in Split(s, sep)[i]
    ensures JoinWith(Split(s, sep), sep) == s
  {
    SplitCount(s, sep);
    SplitPieces(s, sep);
    SplitJoinBack(s, sep);
  }

  lemma {:induction false} SplitCount(s: string, sep: char)
    ensures |Split(s, sep)| == Count(s, sep) + 1
  {
    if s != [] {
      SplitCount(s[1..], sep);
    }
  }

  lemma {:induction false} SplitPieces(s: string, sep: char)
    ensures forall i :: 0 <= i < |Split(s, sep)| ==> sep !in Split(s, sep)[i]
  {
    if s != [] {
      var rest := Split(s[1..], sep);
      SplitPieces(s[1..], sep);
      var parts := Split(s, sep);
      forall i | 0 <= i < |parts|
        ensures sep !in parts[i]
      {
        if s[0] == sep {
          if i > 0 {
            assert parts[i] == rest[i - 1];
          }
        } else if i == 0 {
          assert parts[0] == [s[0]] + rest[0];
        } else {
          assert parts[i] == rest[i];
        }
      }
    }
  }

  lemma {:induction false} SplitJoinBack(s: string, sep: char)
    ensures JoinWith(Split(s, sep), sep) == s
  {
    if s != [] {
      var rest := Split(s[1..], sep);
      SplitJoinBack(s[1..], sep);
      if s[0] == sep {
        assert ([""] + rest)[1..] == rest;
        assert JoinWith([""] + rest, sep) == [sep] + JoinWith(rest, sep);
      } else {
        JoinPrepend(s[0], rest, sep);
      }
      assert [s[0]] + s[1..] == s;
    }
  }

  /** A rune put in front of the first piece comes first in the join. */
  lemma {:induction false} JoinPrepend(c: char, parts: seq<string>, sep: char)
    requires |parts| >= 1
    ensures JoinWith([[c] + parts[0]] + parts[1..], sep) == [c] + JoinWith(parts, sep)
  {
    var q := [[c] + parts[0]] + parts[1..];
    if |parts| > 1 {
      assert q[1..] == parts[1..];
      var tail := JoinWith(parts[1..], sep);
      assert ([c] + parts[0]) + [sep] + tail == [c] + (parts[0] + [sep] + tail);
    }
  }

  /** Splitting a joined list whose pieces do not contain the separator
      gives the pieces back. */
  lemma {:induction false} SplitJoin(parts: seq<string>, sep: char)
    requires |parts| >= 1
    requires forall i :: 0 <= i < |parts| ==> sep !in parts[i]
    ensures Split(JoinWith(parts, sep), sep) == parts
  {
    if |parts| == 1 {
      SplitNoSep(parts[0], sep, []);
      assert parts[0] + [] == parts[0];
      assert [parts[0] + ""] + [] == parts;
    } else {
      var tail := JoinWith(parts[1..], sep);
      SplitJoin(parts[1..], sep);
      SplitNoSep(parts[0], sep, [sep] + tail);
      assert Split([sep] + tail, sep) == [""] + Split(tail, sep) by {
        assert ([sep] + tail)[1..] == tail;
      }
      assert parts[0] + [sep] + tail == parts[0] + ([sep] + tail);
      var p := Split([sep] + tail, sep);
      assert p[0] == "" && p[1..] == parts[1..];
      assert parts[0] + p[0] == parts[0];
      assert [parts[0]] + parts[1..] == parts;
    }
  }

  /** Splitting `w + t`, where `w` has no separator: `w` becomes a prefix of
      the first piece. */
  lemma {:induction false} SplitNoSep(w: string, sep: char, t: string)
    requires sep !in w
    ensures var p := Split(t, sep);
      Split(w + t, sep) == [w + p[0]] + p[1..]
  {
    if w != [] {
      SplitNoSep(w[1..], sep, t);
      assert (w + t)[1..] == w[1..] + t;
      assert [w[0]] + (w[1..] + Split(t, sep)[0]) == w + Split(t, sep)[0];
    } else {
      var p := Split(t, sep);
      assert w + t == t && w + p[0] == p[0];
      assert p == [p[0]] + p[1..];
    }
  }

  // ----------------------------------------------------- decimal numbers

  function DigitValue(c: char): (d: nat)
    requires IsDigit(c)
    ensures d < 10
  {
    c as int - '0' as int
  }

  function DigitChar(d: nat): (c: char)
    requires d < 10
    ensures IsDigit(c) && DigitValue(c) == d
  {
    ('0' as int + d) as char
  }

  /** The value of a string of decimal digits, most significant first. */
  function DigitsValue(s: string): nat
    requires AllDigits(s)
  {
    if s == [] then 0 else DigitsValue(s[..|s| - 1]) * 10 + DigitValue(s[|s| - 1])
  }

  /** Decimal rendering of a natural number, as fmt's %d prints it. */
  function Itoa(n: nat): (s: string)
    ensures |s| >= 1 && AllDigits(s)
  {
    if n < 10 then [DigitChar(n)] else Itoa(n / 10) + [DigitChar(n % 10)]
  }

  /** %d for any integer: a minus sign for negative values. */
  function FormatInt(i: int): string {
    if i < 0 then "-" + Itoa(-i) else Itoa(i)
  }

  lemma {:induction false} DigitsValueItoa(n: nat)
    ensures DigitsValue(Itoa(n)) == n
  {
    if n >= 10 {
      DigitsValueItoa(n / 10);
      var s := Itoa(n);
      assert s[..|s| - 1] == Itoa(n / 10);
    }
  }

  datatype NumError = ErrSyntax | ErrRange

  /** The longest prefix made of digits. */
  function LeadingDigits(s: string): (r: string)
    ensures |r| <= |s| && r == s[..|r|] && AllDigits(r)
    ensures |r| < |s| ==> !IsDigit(s[|r|])
  {
    if s != [] && IsDigit(s[0]) then [s[0]] + LeadingDigits(s[1..]) else []
  }

  lemma {:induction false} LeadingDigitsOf(d: string, c: char, rest: string)
    requires AllDigits(d) && !IsDigit(c)
    ensures LeadingDigits(d + [c] + rest) == d
  {
    if d != [] {
      assert (d + [c] + rest)[1..] == d[1..] + [c] + rest;
      LeadingDigitsOf(d[1..], c, rest);
      assert [d[0]] + d[1..] == d;
    }
  }

  /** A digit string continued by more digits is worth at least as much. */
  lemma {:induction false} DigitsValueGrows(d: string, e: string)
    requires AllDigits(d) && AllDigits(e)
    ensures AllDigits(d + e) && DigitsValue(d) <= DigitsValue(d + e)
  {
    assert AllDigits(d + e) by {
      forall i | 0 <= i < |d + e| ensures IsDigit((d + e)[i]) {
        if i < |d| { assert (d + e)[i] == d[i]; } else { assert (d + e)[i] == e[i - |d|]; }
      }
    }
    if e != [] {
      var e' := e[..|e| - 1];
      DigitsValueGrows(d, e');
      assert (d + e)[..|d + e| - 1] == d + e';
      var x := DigitsValue(d + e');
      assert DigitsValue(d + e) == x * 10 + DigitValue((d + e)[|d + e| - 1]);
      assert x <= x * 10;
    } else {
      assert d + e == d;
    }
  }

  /** The runes after an optional leading sign. */
  function Unsigned(s: string): (r: string)
    ensures |r| <= |s|
  {
    if s != [] && (s[0] == '+' || s[0] == '-') then s[1..] else s
  }

  /** The loop of strconv.ParseUint: it reads the runes from left to right,
      acc holding the value read so far. A rune that is not a digit is a
      syntax error; a value that passes 2^64 - 1 is a range error as soon as
      it does, before any later rune is looked at. */
  function ScanDigits(s: string, acc: nat): (r: Result<nat, NumError>)
    requires acc <= Uint64Max
    ensures r.Ok? ==> acc <= r.value <= Uint64Max
  {
    if s == [] then Ok(acc)
    else if !IsDigit(s[0]) then Err(ErrSyntax)
    else
      var v := acc * 10 + DigitValue(s[0]);
      if v > Uint64Max then Err(ErrRange) else ScanDigits(s[1..], v)
  }

  /** strconv.ParseInt(s, 10, 64): an optional sign, then strconv.ParseUint
      on the rest, which must not be empty; a value outside int64 is a range
      error. */
  function ParseInt(s: string): (r: Result<int, NumError>)
    ensures r.Ok? ==> InInt64(r.value)
  {
    if s == [] then Err(ErrSyntax)
    else
      var digits := Unsigned(s);
      if digits == [] then Err(ErrSyntax)
      else
        match ScanDigits(digits, 0)
        case Err(e) => Err(e)
        case Ok(u) =>
          var v: int := if s[0] == '-' then 0 - u else u;
          if InInt64(v) then Ok(v) else Err(ErrRange)
  }

  /** What the loop of strconv.ParseUint computes, in terms of the digits
      the string starts with, after the digits pre already read: a range
      error exactly when all of them together pass 2^64 - 1, otherwise a
      syntax error when a rune other than a digit follows them, otherwise
      their value. */
  lemma {:induction false} ScanDigitsMeaning(pre: string, s: string)
    requires AllDigits(pre) && DigitsValue(pre) <= Uint64Max
    decreases |s|
    ensures AllDigits(pre + LeadingDigits(s))
    ensures var run := LeadingDigits(s);
      var v := DigitsValue(pre + run);
      ScanDigits(s, DigitsValue(pre)) ==
        if v > Uint64Max then Err(ErrRange)
        else if |run| < |s| then Err(ErrSyntax)
        else Ok(v)
  {
    var run := LeadingDigits(s);
    if s != [] && IsDigit(s[0]) {
      var run' := LeadingDigits(s[1..]);
      assert run == [s[0]] + run';
      var pre' := pre + [s[0]];
      assert pre'[..|pre'| - 1] == pre;
      assert AllDigits(pre') && DigitsValue(pre') == DigitsValue(pre) * 10 + DigitValue(s[0]);
      assert pre + run == pre' + run';
      if DigitsValue(pre') <= Uint64Max {
        ScanDigitsMeaning(pre', s[1..]);
      } else {
        DigitsValueGrows(pre', run');
      }
    } else {
      assert run == [] && pre + run == pre;
    }
  }

  /** ParseInt described by the digits the unsigned part starts with: empty
      is a syntax error; digits past 2^64 - 1 are a range error whatever
      follows them; then a rune other than a digit is a syntax error; then
      the signed value, or a range error outside int64. */
  lemma {:induction false} ParseIntReads(s: string)
    ensures ParseInt(s) ==
      if s == [] || Unsigned(s) == [] then Err(ErrSyntax)
      else
        var digits := Unsigned(s);
        var run := LeadingDigits(digits);
        if DigitsValue(run) > Uint64Max then Err(ErrRange)
        else if |run| < |digits| then Err(ErrSyntax)
        else
          var v: int := if s[0] == '-' then 0 - DigitsValue(run) else DigitsValue(run);
          if InInt64(v) then Ok(v) else Err(ErrRange)
  {
    if s != [] && Unsigned(s) != [] {
      ScanDigitsMeaning([], Unsigned(s));
      assert [] + LeadingDigits(Unsigned(s)) == LeadingDigits(Unsigned(s));
    }
  }

  /** When strconv.ParseInt succeeds and which error it gives: a success is
      a sign and digits only, and the error is a range error exactly when
      the leading digits pass 2^64 - 1 or an all-digit value lies outside
      int64. */
  lemma {:induction false} ParseIntErrors(s: string)
    ensures ParseInt(s).Ok? ==> s != [] && Unsigned(s) != [] && AllDigits(Unsigned(s))
    ensures ParseInt(s) == Err(ErrRange) <==>
      s != [] && Unsigned(s) != [] &&
      (DigitsValue(LeadingDigits(Unsigned(s))) > Uint64Max ||
       (AllDigits(Unsigned(s)) &&
        !InInt64(if s[0] == '-' then 0 - DigitsValue(Unsigned(s)) else DigitsValue(Unsigned(s)))))
  {
    ParseIntReads(s);
    if s != [] && Unsigned(s) != [] {
      var digits := Unsigned(s);
      var run := LeadingDigits(digits);
      if AllDigits(digits) {
        LeadingDigitsAll(digits);
      }
    }
  }

  /** A digit run whose value passes 2^64 - 1 is a range error whatever
      follows it: strconv stops there, before it meets a later non-digit. */
  lemma {:induction false} ParseIntOverflowFirst(d: string, rest: string)
    requires d != [] && AllDigits(d) && DigitsValue(d) > Uint64Max
    ensures ParseInt(d + rest) == Err(ErrRange)
  {
    var s := d + rest;
    assert Unsigned(s) == s;
    ParseIntReads(s);
    var run := LeadingDigits(s);
    LeadingDigitsPrefix(d, rest);
    var tail := run[|d|..];
    assert run == d + tail;
    DigitsValueGrows(d, tail);
  }

  /** The digits a string starts with include every digit of an all-digit
      prefix. */
  lemma {:induction false} LeadingDigitsPrefix(d: string, rest: string)
    requires AllDigits(d)
    ensures |d| <= |LeadingDigits(d + rest)| && LeadingDigits(d + rest)[..|d|] == d
  {
    if d != [] {
      assert (d + rest)[1..] == d[1..] + rest;
      LeadingDigitsPrefix(d[1..], rest);
    }
  }

  /** ParseInt reads back exactly what %d prints, for every int64. */
  lemma {:induction false} ParseIntFormatInt(i: int)
    requires InInt64(i)
    ensures ParseInt(FormatInt(i)) == Ok(i)
  {
    if i < 0 {
      DigitsValueItoa(-i);
      ParseIntNegative(Itoa(-i));
    } else {
      DigitsValueItoa(i);
      ParseIntDigits(Itoa(i));
    }
  }

  /** A minus sign followed by digits parses to the negated value, or to a
      range error below the int64 minimum. */
  lemma {:induction false} ParseIntNegative(d: string)
    requires d != [] && AllDigits(d)
    ensures ParseInt("-" + d) ==
      if DigitsValue(d) <= -Int64Min then Ok(0 - DigitsValue(d)) else Err(ErrRange)
  {
    var s := "-" + d;
    assert s[0] == '-' && s[1..] == d;
    ParseIntReads(s);
    LeadingDigitsAll(d);
  }

  /** An all-digit string is its own leading digit run. */
  lemma {:induction false} LeadingDigitsAll(d: string)
    requires AllDigits(d)
    ensures LeadingDigits(d) == d
  {
    LeadingDigitsPrefix(d, []);
    assert d + [] == d;
  }

  /** A string of digits parses to its value, or to a range error when the
      value does not fit in int64. */
  lemma {:induction false} ParseIntDigits(s: string)
    requires s != [] && AllDigits(s)
    ensures ParseInt(s) == if DigitsValue(s) <= Int64Max then Ok(DigitsValue(s)) else Err(ErrRange)
  {
    assert IsDigit(s[0]) && Unsigned(s) == s;
    ParseIntReads(s);
    LeadingDigitsAll(s);
  }

  // ---------------------------------------------------------------- paths

  /** The runes after the last slash. */
  function LastElement(s: string): (r: string)
    ensures |r| <= |s| && '/' !in r
    ensures s != [] && s[|s| - 1] != '/' ==> r != []
  {
    if s == [] || s[|s| - 1] == '/' then [] else LastElement(s[..|s| - 1]) + [s[|s| - 1]]
  }

  /** filepath.Base on a Unix system. */
  function Base(path: string): (r: string)
    ensures r != []
    ensures r == "/" || '/' !in r
  {
    if path == [] then "."
    else
      var trimmed := TrimRightWhile(path, IsSlash);
      TrimRightWhileShape(path, IsSlash);
      if trimmed == [] then "/" else LastElement(trimmed)
  }

  /** filepath.Join of two elements, without the lexical clean-up. */
  function Join(dir: string, name: string): string {
    if dir == [] then name else dir + "/" + name
  }

  /** Base undoes Join for a plain file name. */
  lemma {:induction false} BaseJoin(dir: string, name: string)
    requires name != [] && '/' !in name
    ensures Base(Join(dir, name)) == name
  {
    var p := Join(dir, name);
    assert p[|p| - 1] == name[|name| - 1];
    assert TrimRightWhile(p, IsSlash) == p;
    LastElementOf(dir, name);
  }

  lemma {:induction false} LastElementOf(dir: string, name: string)
    requires '/' !in name
    ensures LastElement(Join(dir, name)) == name
  {
    if dir == [] {
      LastElementAfter([], name);
      assert [] + name == name;
    } else {
      LastElementAfter(dir + "/", name);
    }
  }

  /** Base of a joined path is the base of the name, whenever the name
      holds a rune other than a slash. */
  lemma {:induction false} BaseOfJoin(dir: string, name: string)
    requires exists i :: 0 <= i < |name| && name[i] != '/'
    ensures Base(Join(dir, name)) == Base(name)
  {
    var pre := if dir == [] then [] else dir + "/";
    assert Join(dir, name) == pre + name;
    var t := TrimRightWhile(name, IsSlash);
    TrimRightWhileShape(name, IsSlash);
    assert t != [] by {
      var i :| 0 <= i < |name| && name[i] != '/';
      assert !IsSlash(name[i]);
    }
    TrimRightAfter(pre, name, IsSlash);
    LastElementAppend(pre, t);
  }

  /** Trimming the right end of `pre + s` stays inside `s` when `s` keeps a
      rune. */
  lemma {:induction false} TrimRightAfter(pre: string, s: string, drop: char -> bool)
    requires TrimRightWhile(s, drop) != []
    ensures TrimRightWhile(pre + s, drop) == pre + TrimRightWhile(s, drop)
  {
    var p := pre + s;
    assert p[|p| - 1] == s[|s| - 1];
    if drop(s[|s| - 1]) {
      assert p[..|p| - 1] == pre + s[..|s| - 1];
      TrimRightAfter(pre, s[..|s| - 1], drop);
    }
  }

  /** What comes before a slash does not change the last element. */
  lemma {:induction false} LastElementAppend(pre: string, t: string)
    requires pre == [] || pre[|pre| - 1] == '/'
    ensures LastElement(pre + t) == LastElement(t)
  {
    var s := pre + t;
    if t == [] {
      assert s == pre;
    } else {
      assert s[|s| - 1] == t[|t| - 1];
      assert s[..|s| - 1] == pre + t[..|t| - 1];
      LastElementAppend(pre, t[..|t| - 1]);
    }
  }

  /** The last element of `pre + name` is `name` when `pre` is empty or
      ends in a slash and `name` has none. */
  lemma {:induction false} LastElementAfter(pre: string, name: string)
    requires pre == [] || pre[|pre| - 1] == '/'
    requires '/' !in name
    ensures LastElement(pre + name) == name
  {
    var s := pre + name;
    if name == [] {
      assert s == pre;
    } else {
      var init := name[..|name| - 1];
      LastElementAfter(pre, init);
      assert s[..|s| - 1] == pre + init;
      assert s[|s| - 1] == name[|name| - 1];
      assert init + [name[|name| - 1]] == name;
    }
  }
}
