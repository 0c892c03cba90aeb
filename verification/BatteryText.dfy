/** The text in which the battery counters are kept: decimal numbers printed by snprintf and read
    back by sscanf. */
module BatteryText {

  type int32 = x: int | -0x8000_0000 <= x < 0x8000_0000

  /** The size of the buffers that snprintf prints into. */
  const BUFF_SIZE := 256

  // ---------- Printing ----------

  function Digit(d: nat): (c: char)
    requires d < 10
  {
    '0' + d as char
  }

  function Digits(n: nat): string {
    if n < 10 then [Digit(n)] else Digits(n / 10) + [Digit(n % 10)]
  }

  function Magnitude(x: int): nat {
    if x < 0 then -x else x
  }

  function PrintInt(x: int): string {
    (if x < 0 then "-" else "") + Digits(Magnitude(x))
  }

  /** "%d %d ... %d" */
  function Print(xs: seq<int32>): string {
    if xs == [] then "" else if |xs| == 1 then PrintInt(xs[0]) else PrintInt(xs[0]) + " " + Print(xs[1..])
  }

  /** snprintf: what does not fit before the terminating NUL is cut off. */
  function Snprintf(size: nat, text: string): string
    requires size > 0
  {
    if |text| < size then text else text[..size - 1]
  }

  // ---------- Scanning ----------

  predicate IsDigit(c: char) {
    '0' <= c <= '9'
  }

  predicate IsSpace(c: char) {
    c == ' ' || '\t' <= c <= '\r'
  }

  function SkipSpace(s: string): string {
    if s != [] && IsSpace(s[0]) then SkipSpace(s[1..]) else s
  }

  /** The value of the digits at the start of s, appended to those of n, and what follows them. */
  function ScanDigits(s: string, n: nat): (nat, string) {
    if s == [] || !IsDigit(s[0]) then (n, s) else ScanDigits(s[1..], 10 * n + (s[0] - '0') as nat)
  }

  datatype Scan = Mismatch | Match(value: int32, rest: string)

  /** One %d conversion. */
  function ScanInt(s: string): Scan {
    var t := SkipSpace(s);
    var u := if t != [] && (t[0] == '-' || t[0] == '+') then t[1..] else t;
    if u == [] || !IsDigit(u[0]) then Mismatch
    else
      var (n, rest) := ScanDigits(u, 0);
      var x: int := if t[0] == '-' then 0 - n else n;
      if -0x8000_0000 <= x < 0x8000_0000 then Match(x, rest) else Mismatch
  }

  /** sscanf with n %d conversions: the values assigned before the first mismatch. */
  function Parse(s: string, n: nat): (xs: seq<int32>)
    ensures |xs| <= n
    decreases n, |s|
  {
    if n == 0 then []
    else match ScanInt(s)
      case Mismatch => []
      case Match(x, rest) => [x] + Parse(rest, n - 1)
  }

  function TrimEnd(s: string): string {
    if s != [] && IsSpace(s[|s| - 1]) then TrimEnd(s[..|s| - 1]) else s
  }

  /** android::base::Trim */
  function Trim(s: string): string {
    TrimEnd(SkipSpace(s))
  }

  // ---------- The digits of a number ----------

  lemma {:induction false} DigitsAreDigits(n: nat)
    ensures Digits(n) != [] && forall i :: 0 <= i < |Digits(n)| ==> IsDigit(Digits(n)[i])
  {
    if n >= 10 {
      DigitsAreDigits(n / 10);
    }
  }

  lemma {:induction false} ScanThrough(s: string, t: string, n: nat)
    requires forall i :: 0 <= i < |s| ==> IsDigit(s[i])
    ensures ScanDigits(s + t, n) == ScanDigits(t, ScanDigits(s, n).0) && ScanDigits(s, n).1 == []
  {
    if s == [] {
      assert s + t == t;
    } else {
      assert (s + t)[1..] == s[1..] + t;
      ScanThrough(s[1..], t, 10 * n + (s[0] - '0') as nat);
    }
  }

  lemma {:induction false} ScanOfDigits(n: nat)
    ensures ScanDigits(Digits(n), 0) == (n, [])
  {
    DigitsAreDigits(n);
    if n >= 10 {
      ScanOfDigits(n / 10);
      DigitsAreDigits(n / 10);
      ScanThrough(Digits(n / 10), [Digit(n % 10)], 0);
    }
  }

  /** Text after which a number ends. */
  predicate EndsNumber(tail: string) {
    tail == [] || !IsDigit(tail[0])
  }

  /** A printed number is scanned back, and the scan stops right behind it. */
  lemma IntRoundTrip(x: int32, tail: string)
    requires EndsNumber(tail)
    ensures ScanInt(PrintInt(x) + tail) == Match(x, tail)
  {
    var n := Magnitude(x);
    DigitsAreDigits(n);
    ScanOfDigits(n);
    ScanThrough(Digits(n), tail, 0);
    if x < 0 {
      assert (PrintInt(x) + tail)[1..] == Digits(n) + tail;
    } else {
      assert PrintInt(x) + tail == Digits(n) + tail;
    }
  }

  /** A printed number is the first of those that are read. */
  lemma ParseFirst(x: int32, rest: string, n: nat)
    requires EndsNumber(rest)
    ensures Parse(PrintInt(x) + rest, n + 1) == [x] + Parse(rest, n)
  {
    IntRoundTrip(x, rest);
  }

  lemma ParseSpaced(x: int32, rest: string, n: nat)
    ensures Parse(PrintInt(x) + (" " + rest), n + 1) == [x] + Parse(rest, n)
  {
    ParseFirst(x, " " + rest, n);
    SpaceBefore(rest, n);
  }

  lemma PrintSplits(xs: seq<int32>, tail: string)
    requires |xs| > 1
    ensures Print(xs) + tail == PrintInt(xs[0]) + (" " + (Print(xs[1..]) + tail))
  {
    Regroup(PrintInt(xs[0]), " ", Print(xs[1..]), tail);
  }

  lemma Regroup(a: string, b: string, c: string, d: string)
    ensures (a + b + c) + d == a + (b + (c + d))
  {
  }

  /** Any list of 32-bit numbers is read back from its print, whatever follows it. */
  lemma {:induction false} RoundTrip(xs: seq<int32>, tail: string)
    requires EndsNumber(tail)
    ensures Parse(Print(xs) + tail, |xs|) == xs
  {
    if |xs| == 1 {
      ParseFirst(xs[0], tail, 0);
    } else if |xs| > 1 {
      var rest := Print(xs[1..]) + tail;
      PrintSplits(xs, tail);
      ParseSpaced(xs[0], rest, |xs| - 1);
      RoundTrip(xs[1..], tail);
    }
  }

  lemma SpaceBefore(s: string, n: nat)
    ensures Parse(" " + s, n) == Parse(s, n)
  {
    assert (" " + s)[1..] == s;
    assert SkipSpace(" " + s) == SkipSpace(s);
  }

  /** A text is read up to the first place where no number stands, whatever follows. */
  lemma {:induction false} ParseStops(xs: seq<int32>, s: string, n: nat)
    requires xs != [] && n >= |xs| && ScanInt(s) == Mismatch
    ensures Parse(Print(xs) + (" " + s), n) == xs
    decreases |xs|
  {
    if |xs| == 1 {
      ParseSpaced(xs[0], s, n - 1);
    } else {
      var rest := Print(xs[1..]) + (" " + s);
      PrintSplits(xs, " " + s);
      ParseSpaced(xs[0], rest, n - 1);
      ParseStops(xs[1..], s, n - 1);
    }
  }

  // ---------- The print fits the buffer, and trimming leaves it alone ----------

  /** Ten digits are enough for 31 bits and their carry. */
  lemma DigitsLength(n: nat)
    requires n <= 0x8000_0000
    ensures |Digits(n)| <= 10
  {
    ManyDigits(n, 10, 10_000_000_000);
  }

  lemma {:induction false} ManyDigits(n: nat, k: nat, bound: nat)
    requires n < bound && k >= 1 && bound == Power10(k)
    ensures |Digits(n)| <= k
  {
    if n >= 10 {
      assert k > 1;
      ManyDigits(n / 10, k - 1, bound / 10);
    }
  }

  function Power10(k: nat): nat {
    if k == 0 then 1 else 10 * Power10(k - 1)
  }

  lemma {:induction false} PrintLength(xs: seq<int32>)
    ensures |Print(xs)| <= 12 * |xs|
  {
    if xs != [] {
      DigitsLength(Magnitude(xs[0]));
      if |xs| > 1 {
        PrintLength(xs[1..]);
      }
    }
  }

  /** Neither end of a print is white space. */
  lemma {:induction false} PrintEnds(xs: seq<int32>)
    requires xs != []
    ensures var p := Print(xs); p != [] && !IsSpace(p[0]) && !IsSpace(p[|p| - 1])
  {
    DigitsAreDigits(Magnitude(xs[0]));
    if |xs| > 1 {
      PrintEnds(xs[1..]);
    }
  }

  /** What is printed into the buffer is not cut off, and is read back with or without trimming. */
  lemma BufferRoundTrip(xs: seq<int32>)
    requires 1 <= |xs| <= 8
    ensures Snprintf(BUFF_SIZE, Print(xs)) == Print(xs)
    ensures Parse(Print(xs), |xs|) == xs && Parse(Trim(Print(xs)), |xs|) == xs
  {
    PrintLength(xs);
    PrintEnds(xs);
    RoundTrip(xs, "");
    assert Print(xs) + "" == Print(xs);
    assert SkipSpace(Print(xs)) == Print(xs);
  }

  // ---------- The form of what is printed ----------

  /** A number without a sign or needless zeros in front. */
  predicate Numeral(s: string) {
    s != [] && (forall i :: 0 <= i < |s| ==> '0' <= s[i] <= '9') && (|s| > 1 ==> s[0] != '0')
  }

  lemma DigitBehind(n: nat, c: char)
    requires n > 0 && IsDigit(c)
    ensures Digits(10 * n + (c - '0') as nat) == Digits(n) + [c]
  {
    var d := (c - '0') as nat;
    assert (10 * n + d) / 10 == n && (10 * n + d) % 10 == d;
  }

  lemma ScanLast(s: string, c: char, n: nat)
    requires (forall i :: 0 <= i < |s| ==> IsDigit(s[i])) && IsDigit(c) && n == ScanDigits(s, 0).0
    ensures ScanDigits(s + [c], 0) == (10 * n + (c - '0') as nat, [])
  {
    ScanThrough(s, [c], 0);
    assert [c][1..] == [];
  }

  /** There is one numeral for each value. */
  lemma {:induction false} NumeralIsDigits(s: string)
    requires Numeral(s)
    ensures ScanDigits(s, 0).1 == [] && s == Digits(ScanDigits(s, 0).0)
    decreases |s|
  {
    var front, c := s[..|s| - 1], s[|s| - 1];
    var n := ScanDigits(front, 0).0;
    assert s == front + [c];
    ScanLast(front, c, n);
    if front != [] {
      assert front[0] == s[0];
      NumeralIsDigits(front);
      DigitBehind(n, c);
    }
  }

  lemma {:induction false} DigitsNumeral(n: nat)
    ensures Numeral(Digits(n)) && (n > 0 ==> Digits(n)[0] != '0')
  {
    DigitsAreDigits(n);
    if n >= 10 {
      DigitsNumeral(n / 10);
    }
  }

  /** A number is printed as the one numeral that reads as it, with a minus sign in front of it if the
      number is negative, and nothing else. */
  lemma PrintIsNumeral(x: int32, s: string)
    ensures x >= 0 ==> (s == PrintInt(x) <==> Numeral(s) && ScanInt(s) == Match(x, ""))
    ensures x < 0 ==> (s == PrintInt(x) <==> s != [] && s[0] == '-' && Numeral(s[1..]) && ScanInt(s) == Match(x, ""))
  {
    DigitsNumeral(Magnitude(x));
    IntRoundTrip(x, "");
    assert PrintInt(x) + "" == PrintInt(x);
    if x < 0 {
      assert PrintInt(x)[1..] == Digits(Magnitude(x));
      if s != [] && s[0] == '-' && Numeral(s[1..]) {
        NumeralIsDigits(s[1..]);
        assert s == "-" + s[1..];
      }
    } else if Numeral(s) {
      NumeralIsDigits(s);
    }
  }

  /** One space lies between two numbers. */
  lemma {:induction false} PrintLast(xs: seq<int32>, x: int32)
    requires xs != []
    ensures Print(xs + [x]) == Print(xs) + " " + PrintInt(x)
  {
    assert (xs + [x])[1..] == xs[1..] + [x];
    if |xs| > 1 {
      PrintLast(xs[1..], x);
      assert PrintInt(xs[0]) + " " + (Print(xs[1..]) + " " + PrintInt(x))
          == (PrintInt(xs[0]) + " " + Print(xs[1..])) + " " + PrintInt(x);
    }
  }

  /** What is read may have white space, a plus sign or zeros in front. */
  lemma ScanLenient(s: string)
    ensures ScanInt(" " + s) == ScanInt("\t" + s) == ScanInt("\n" + s) == ScanInt("\r" + s) == ScanInt(s)
    ensures s != [] && IsDigit(s[0]) ==> ScanInt("+" + s) == ScanInt("0" + s) == ScanInt(s)
  {
    assert (" " + s)[1..] == s && ("\t" + s)[1..] == s && ("\n" + s)[1..] == s && ("\r" + s)[1..] == s;
    assert ("+" + s)[1..] == s && ("0" + s)[1..] == s;
  }
}
