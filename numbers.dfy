/** Decimal text: the `%02d` / `%03d` formatting that numbers the tickets,
    and `strconv.ParseInt(s, 10, 64)`, which reads the admin allow-list. */
module Numbers {
  import opened Wrappers
  import opened Text

  function Pow10(n: nat): (r: nat)
    ensures r >= 1
  {
    if n == 0 then 1 else 10 * Pow10(n - 1)
  }

  predicate IsDigit(c: char) {
    '0' <= c <= '9'
  }

  function DigitChar(d: nat): (c: char)
    requires d < 10
    ensures IsDigit(c)
  {
    ('0' as int + d) as char
  }

  function DigitValue(c: char): nat
    requires IsDigit(c)
  {
    c as int - '0' as int
  }

  predicate AllDigits(s: string) {
    forall i :: 0 <= i < |s| ==> IsDigit(s[i])
  }

  // ---------------------------------------------------------------------
  // Formatting

  /** The decimal representation of `n` without leading zeros, as Go's `%d`
      prints a non-negative integer. */
  function DecimalDigits(n: nat): string
    decreases n
  {
    if n < 10 then [DigitChar(n)] else DecimalDigits(n / 10) + [DigitChar(n % 10)]
  }

  function Zeros(k: nat): string {
    seq(k, _ => '0')
  }

  /** Go's `fmt.Sprintf("%0<width>d", n)` for a non-negative `n`: the decimal
      digits, left-padded with zeros to at least `width` characters. */
  function FormatPadded(n: nat, width: nat): string {
    var d := DecimalDigits(n);
    if |d| >= width then d else Zeros(width - |d|) + d
  }

  /** The last `width` decimal digits of `n`, most significant first: the
      reference reading of a zero-padded number. */
  function FixedWidth(n: nat, width: nat): (r: string)
    ensures |r| == width
  {
    if width == 0 then [] else FixedWidth(n / 10, width - 1) + [DigitChar(n % 10)]
  }

  lemma {:induction false} FixedWidthOfZero(k: nat)
    ensures FixedWidth(0, k) == Zeros(k)
  {
    if k > 0 {
      FixedWidthOfZero(k - 1);
      assert Zeros(k) == Zeros(k - 1) + ['0'];
    }
  }

  lemma {:induction false} DecimalDigitsFit(n: nat, k: nat)
    requires k >= 1 && n < Pow10(k)
    ensures |DecimalDigits(n)| <= k
    decreases k
  {
    if n >= 10 {
      assert k >= 2;
      DecimalDigitsFit(n / 10, k - 1);
    }
  }

  /** Below `10^width`, zero-padding the decimal digits gives exactly the
      last `width` digits. */
  lemma {:induction false} PaddedIsFixedWidth(n: nat, width: nat)
    requires width >= 1 && n < Pow10(width)
    ensures FormatPadded(n, width) == FixedWidth(n, width)
    decreases width
  {
    var d := DigitChar(n % 10);
    if n < 10 {
      FixedWidthOfZero(width - 1);
      assert DecimalDigits(n) == [d];
    } else {
      assert width >= 2;
      var ds := DecimalDigits(n / 10);
      DecimalDigitsFit(n / 10, width - 1);
      PaddedIsFixedWidth(n / 10, width - 1);
      assert DecimalDigits(n) == ds + [d];
      assert Zeros(width - 1 - |ds|) + ds + [d] == (Zeros(width - 1 - |ds|) + ds) + [d];
      assert FormatPadded(n, width) == FormatPadded(n / 10, width - 1) + [d];
    }
  }

  lemma {:induction false} FixedWidthAscending(a: nat, b: nat, width: nat)
    requires a < b < Pow10(width)
    ensures LexLess(FixedWidth(a, width), FixedWidth(b, width))
    decreases width
  {
    assert width > 0;
    var pa, pb := FixedWidth(a / 10, width - 1), FixedWidth(b / 10, width - 1);
    if a / 10 < b / 10 {
      FixedWidthAscending(a / 10, b / 10, width - 1);
    } else {
      assert a % 10 < b % 10;
    }
    LexLessAppend(pa, pb, DigitChar(a % 10), DigitChar(b % 10));
  }

  /** Zero-padded numbers below `10^width` all have `width` characters, and
      their string order is their numeric order. */
  lemma PaddedAscending(a: nat, b: nat, width: nat)
    requires width >= 1 && a < b < Pow10(width)
    ensures |FormatPadded(a, width)| == width && |FormatPadded(b, width)| == width
    ensures LexLess(FormatPadded(a, width), FormatPadded(b, width))
  {
    PaddedIsFixedWidth(a, width);
    PaddedIsFixedWidth(b, width);
    FixedWidthAscending(a, b, width);
  }

  // ---------------------------------------------------------------------
  // Parsing

  /** 2^63: `int64` holds -2^63 .. 2^63 - 1. */
  const Int64Bound: nat := 0x8000_0000_0000_0000

  function DigitsValue(s: string): nat
    requires AllDigits(s)
    decreases |s|
  {
    if s == [] then 0 else 10 * DigitsValue(s[..|s| - 1]) + DigitValue(s[|s| - 1])
  }

  /** Go's `strconv.ParseInt(s, 10, 64)`: an optional `+` or `-`, then one or
      more decimal digits (no underscores in base 10), the value in the
      `int64` range; anything else is an error (`None`). */
  function ParseInt64(s: string): (r: Option<int>)
    ensures r.Some? ==> -(Int64Bound as int) <= r.value < Int64Bound
  {
    if s == [] then None
    else
      var neg := s[0] == '-';
      var digits := if s[0] == '+' || s[0] == '-' then s[1..] else s;
      if digits == [] || !AllDigits(digits) then None
      else
        var magnitude := DigitsValue(digits);
        if neg then (if magnitude > Int64Bound then None else Some(0 - magnitude as int))
        else (if magnitude >= Int64Bound then None else Some(magnitude))
  }

  lemma {:induction false} DecimalDigitsValue(n: nat)
    ensures AllDigits(DecimalDigits(n)) && DigitsValue(DecimalDigits(n)) == n
    decreases n
  {
    var s := DecimalDigits(n);
    if n >= 10 {
      DecimalDigitsValue(n / 10);
      assert s[..|s| - 1] == DecimalDigits(n / 10);
    } else {
      assert s[..0] == [];
    }
  }

  /** Parsing what `%d` prints gives the number back. */
  lemma ParseDecimalDigits(n: nat)
    requires n < Int64Bound
    ensures ParseInt64(DecimalDigits(n)) == Some(n)
  {
    DecimalDigitsValue(n);
    assert IsDigit(DecimalDigits(n)[0]);
  }

  /** Decimal digits carry no surrounding white space to trim. */
  lemma TrimDecimalDigits(n: nat)
    ensures TrimSpace(DecimalDigits(n)) == DecimalDigits(n)
  {
    var s := DecimalDigits(n);
    DecimalDigitsValue(n);
    assert !IsSpace(s[0]) && !IsSpace(s[|s| - 1]);
  }
}
