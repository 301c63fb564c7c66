/**
 * String helpers shared by the models: the few JavaScript string built-ins the
 * storefront relies on (`Number.prototype.toString`, `padStart`, `trim`,
 * `split` on one character), written out on `seq<char>`.
 */
module Text {

  datatype Option<T> = None | Some(value: T)

  // ---------------------------------------------------------------------------
  // Decimal digits
  // ---------------------------------------------------------------------------

  predicate IsDigit(c: char) {
    '0' <= c <= '9'
  }

  predicate AllDigits(s: string) {
    forall i :: 0 <= i < |s| ==> IsDigit(s[i])
  }

  function DigitChar(d: nat): (c: char)
    requires d < 10
    ensures IsDigit(c)
    ensures c as int - '0' as int == d
  {
    ('0' as int + d) as char
  }

  function DigitValue(c: char): (d: nat)
    requires IsDigit(c)
    ensures d < 10
  {
    c as int - '0' as int
  }

  /** The decimal value of a string of digits (the inverse of NatToString). */
  function ParseDigits(s: string): nat
    requires AllDigits(s)
  {
    if s == [] then 0 else ParseDigits(s[..|s| - 1]) * 10 + DigitValue(s[|s| - 1])
  }

  /** `n.toString()` for a non-negative integer. */
  function NatToString(n: nat): (s: string)
    ensures |s| >= 1 && AllDigits(s)
    ensures n < 10 <==> |s| == 1
  {
    if n < 10 then [DigitChar(n)] else NatToString(n / 10) + [DigitChar(n % 10)]
  }

  lemma {:induction false} ParseNatToString(n: nat)
    ensures ParseDigits(NatToString(n)) == n
  {
    if n >= 10 {
      var s := NatToString(n);
      ParseNatToString(n / 10);
      assert s[..|s| - 1] == NatToString(n / 10);
    }
  }

  /** Distinct numbers render to distinct strings. */
  lemma NatToStringInjective(a: nat, b: nat)
    ensures NatToString(a) == NatToString(b) ==> a == b
  {
    ParseNatToString(a);
    ParseNatToString(b);
  }

  /** `s.padStart(width, fill)`. */
  function PadStart(s: string, width: nat, fill: char): (r: string)
    ensures |r| == if |s| >= width then |s| else width
    ensures r[|r| - |s|..] == s
    ensures forall i :: 0 <= i < |r| - |s| ==> r[i] == fill
  {
    if |s| >= width then s else seq(width - |s|, _ => fill) + s
  }

  /**
   * `n.toString().padStart(2, '0')` for the hours, minutes and cents below
   * 100 the shop formats, written digit by digit (TwoDigitsIsPadStart shows
   * it agrees with PadStart).
   */
  function TwoDigits(n: nat): (s: string)
    requires n < 100
    ensures |s| == 2 && IsDigit(s[0]) && IsDigit(s[1])
  {
    [DigitChar(n / 10), DigitChar(n % 10)]
  }

  lemma TwoDigitsIsPadStart(n: nat)
    requires n < 100
    ensures TwoDigits(n) == PadStart(NatToString(n), 2, '0')
  {
    var d := NatToString(n);
    if n < 10 {
      assert d == [DigitChar(n)];
      assert PadStart(d, 2, '0') == ['0'] + d;
    } else {
      assert NatToString(n / 10) == [DigitChar(n / 10)];
    }
  }

  /** Two digits, `h`, two digits, as in `14h30`. */
  predicate IsClockLabel(s: string) {
    |s| == 5 && s[2] == 'h' && IsDigit(s[0]) && IsDigit(s[1]) && IsDigit(s[3]) && IsDigit(s[4])
  }

  /** The clock labels used by the shop: two-digit hour, `h`, two-digit minute. */
  function ClockLabel(h: nat, m: nat): (s: string)
    requires h < 100 && m < 100
    ensures IsClockLabel(s)
  {
    TwoDigits(h) + "h" + TwoDigits(m)
  }

  /** Reads a clock label back as minutes since midnight. */
  function LabelMinutes(s: string): nat
    requires IsClockLabel(s)
  {
    (DigitValue(s[0]) * 10 + DigitValue(s[1])) * 60 + DigitValue(s[3]) * 10 + DigitValue(s[4])
  }

  /** LabelMinutes inverts ClockLabel. */
  lemma ClockLabelMinutes(h: nat, m: nat)
    requires h < 100 && m < 100
    ensures LabelMinutes(ClockLabel(h, m)) == h * 60 + m
  {
    var s := ClockLabel(h, m);
    assert s[0] == DigitChar(h / 10) && s[1] == DigitChar(h % 10);
    assert s[3] == DigitChar(m / 10) && s[4] == DigitChar(m % 10);
  }

  // ---------------------------------------------------------------------------
  // trim and split
  // ---------------------------------------------------------------------------

  /** The characters `String.prototype.trim` removes: white space and line terminators. */
  predicate IsSpace(c: char) {
    c == '\t' || c == '\n' || c == '\U{B}' || c == '\U{C}' || c == '\r' || c == ' '
    || c == '\U{A0}' || c == '\U{1680}' || ('\U{2000}' <= c <= '\U{200A}')
    || c == '\U{2028}' || c == '\U{2029}' || c == '\U{202F}' || c == '\U{205F}'
    || c == '\U{3000}' || c == '\U{FEFF}'
  }

  predicate AllSpace(s: string) {
    forall i :: 0 <= i < |s| ==> IsSpace(s[i])
  }

  function TrimStart(s: string): (r: string)
    ensures r == [] || !IsSpace(r[0])
  {
    if s != [] && IsSpace(s[0]) then TrimStart(s[1..]) else s
  }

  function TrimEnd(s: string): (r: string)
    ensures r == [] || !IsSpace(r[|r| - 1])
  {
    if s != [] && IsSpace(s[|s| - 1]) then TrimEnd(s[..|s| - 1]) else s
  }

  /** `s.trim()`. */
  function Trim(s: string): string {
    TrimEnd(TrimStart(s))
  }

  function TrimAll(ss: seq<string>): (r: seq<string>)
    ensures |r| == |ss|
    ensures forall i :: 0 <= i < |ss| ==> r[i] == Trim(ss[i])
  {
    seq(|ss|, i requires 0 <= i < |ss| => Trim(ss[i]))
  }

  /** Begins and ends with something other than white space (so is not empty). */
  predicate Trimmed(s: string) {
    s != [] && !IsSpace(s[0]) && !IsSpace(s[|s| - 1])
  }

  lemma {:induction false} TrimStartSpaces(w: string, x: string)
    requires AllSpace(w)
    requires x == [] || !IsSpace(x[0])
    ensures TrimStart(w + x) == x
  {
    if w != [] {
      assert (w + x)[1..] == w[1..] + x;
      TrimStartSpaces(w[1..], x);
    } else {
      assert w + x == x;
    }
  }

  lemma {:induction false} TrimEndSpaces(x: string, w: string)
    requires AllSpace(w)
    requires x == [] || !IsSpace(x[|x| - 1])
    ensures TrimEnd(x + w) == x
  {
    if w != [] {
      assert (x + w)[..|x + w| - 1] == x + w[..|w| - 1];
      TrimEndSpaces(x, w[..|w| - 1]);
    } else {
      assert x + w == x;
    }
  }

  /** Trim removes exactly the white space around a trimmed core. */
  lemma TrimAround(w1: string, x: string, w2: string)
    requires AllSpace(w1) && AllSpace(w2) && Trimmed(x)
    ensures Trim(w1 + x + w2) == x
  {
    assert w1 + x + w2 == w1 + (x + w2);
    TrimStartSpaces(w1, x + w2);
    TrimEndSpaces(x, w2);
  }

  /** A trimmed string is left alone by trim, also with one blank added on either side. */
  lemma TrimTrimmed(m: string)
    requires Trimmed(m)
    ensures Trim(m) == m
  {
  }

  lemma TrimPadRight(m: string)
    requires Trimmed(m)
    ensures Trim(m + " ") == m
  {
    assert (m + " ")[0] == m[0];
    assert AllSpace(" ");
    TrimEndSpaces(m, " ");
  }

  lemma TrimPadLeft(m: string)
    requires Trimmed(m)
    ensures Trim(" " + m) == m
  {
    assert AllSpace(" ");
    TrimStartSpaces(" ", m);
  }

  /** `s.split(sep)` for a one-character separator: always at least one piece. */
  function Split(s: string, sep: char): (r: seq<string>)
    ensures |r| >= 1
  {
    if s == [] then [""]
    else if s[0] == sep then [""] + Split(s[1..], sep)
    else
      var rest := Split(s[1..], sep);
      [[s[0]] + rest[0]] + rest[1..]
  }

  lemma {:induction false} SplitWithout(x: string, sep: char)
    requires sep !in x
    ensures Split(x, sep) == [x]
  {
    if x != [] {
      assert sep !in x[1..] by {
        forall i | 0 <= i < |x[1..]| ensures x[1..][i] != sep {
          assert x[1..][i] == x[i + 1];
        }
      }
      SplitWithout(x[1..], sep);
      assert [x[0]] + x[1..] == x;
    }
  }

  lemma {:induction false} SplitAt(x: string, sep: char, y: string)
    requires sep !in x
    ensures Split(x + [sep] + y, sep) == [x] + Split(y, sep)
  {
    var s := x + [sep] + y;
    if x == [] {
      assert s == [sep] + y;
      assert s[1..] == y;
    } else {
      assert s[0] == x[0];
      assert s[1..] == x[1..] + [sep] + y;
      assert sep !in x[1..] by {
        forall i | 0 <= i < |x[1..]| ensures x[1..][i] != sep {
          assert x[1..][i] == x[i + 1];
        }
      }
      SplitAt(x[1..], sep, y);
      assert [x[0]] + x[1..] == x;
    }
  }

  /** `x + " c " + y` splits on c, absent from x and y, into `x + " "` and `" " + y`. */
  lemma SplitSpaced(x: string, sep: char, y: string)
    requires sep !in x && sep !in y && sep != ' '
    ensures Split(x + [' ', sep, ' '] + y, sep) == [x + " ", " " + y]
  {
    var l, r := x + " ", " " + y;
    assert x + [' ', sep, ' '] + y == l + [sep] + r;
    assert sep !in l by {
      forall i | 0 <= i < |l| ensures l[i] != sep { if i < |x| { assert l[i] == x[i]; } }
    }
    assert sep !in r by {
      forall i | 0 <= i < |r| ensures r[i] != sep { if i > 0 { assert r[i] == y[i - 1]; } }
    }
    SplitAt(l, sep, r);
    SplitWithout(r, sep);
  }
}
