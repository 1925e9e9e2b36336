/** Character and string primitives that Python supplies as built-ins in the source:
    decimal and hexadecimal digits (`int(s)`, `int(s, 16)`), zero-padded decimal
    rendering (`f"{n:012d}"`, `strftime`), `str.split`, `str.strip` and `str.zfill`. */
module Text {
  import opened Wrappers

  function Pow(base: nat, e: nat): (p: nat)
    ensures base > 0 ==> p > 0
  {
    if e == 0 then 1 else base * Pow(base, e - 1)
  }

  // ---------------------------------------------------------------------------
  // Decimal digits

  predicate IsDigit(c: char) { '0' <= c <= '9' }

  predicate AllDigits(s: string) { forall i | 0 <= i < |s| :: IsDigit(s[i]) }

  function DigitValue(c: char): (d: nat)
    requires IsDigit(c)
    ensures d < 10
  {
    c as int - '0' as int
  }

  function DigitChar(d: nat): (c: char)
    requires d < 10
    ensures IsDigit(c) && DigitValue(c) == d
  {
    ('0' as int + d) as char
  }

  /** The value of a string of decimal digits, most significant first. */
  function DecimalValue(s: string): (v: nat)
    requires AllDigits(s)
    ensures v < Pow(10, |s|)
  {
    if |s| == 0 then 0 else 10 * DecimalValue(s[..|s| - 1]) + DigitValue(s[|s| - 1])
  }

  /** `n` rendered in exactly `width` decimal digits, zero-padded on the left
      (Python's `f"{n:0{width}d}"` for `n < 10^width`). */
  function PadDecimal(n: nat, width: nat): (s: string)
    ensures |s| == width && AllDigits(s)
  {
    if width == 0 then [] else PadDecimal(n / 10, width - 1) + [DigitChar(n % 10)]
  }

  lemma {:induction false} DecimalValueOfPad(n: nat, width: nat)
    requires n < Pow(10, width)
    ensures DecimalValue(PadDecimal(n, width)) == n
  {
    if width > 0 {
      var s := PadDecimal(n, width);
      var init := PadDecimal(n / 10, width - 1);
      assert s == init + [DigitChar(n % 10)];
      assert s[..|s| - 1] == init;
      assert n / 10 < Pow(10, width - 1);
      DecimalValueOfPad(n / 10, width - 1);
      assert DecimalValue(s) == 10 * DecimalValue(init) + n % 10;
    }
  }

  lemma {:induction false} PadOfDecimalValue(s: string)
    requires AllDigits(s)
    ensures PadDecimal(DecimalValue(s), |s|) == s
  {
    if |s| > 0 {
      var init := s[..|s| - 1];
      PadOfDecimalValue(init);
      var v := DecimalValue(s);
      assert v / 10 == DecimalValue(init) && v % 10 == DigitValue(s[|s| - 1]);
      assert DigitChar(DigitValue(s[|s| - 1])) == s[|s| - 1];
      assert s == init + [s[|s| - 1]];
    }
  }

  /** Two zero-padded renderings of the same width are equal exactly when the
      numbers agree below `10^width`. */
  lemma PadDecimalInjective(m: nat, n: nat, width: nat)
    requires m < Pow(10, width) && n < Pow(10, width)
    ensures PadDecimal(m, width) == PadDecimal(n, width) <==> m == n
  {
    DecimalValueOfPad(m, width);
    DecimalValueOfPad(n, width);
  }

  /** Splitting a padded rendering after its last two digits. */
  lemma PadSplitTwo(n: nat, width: nat)
    ensures PadDecimal(n, width + 2) == PadDecimal(n / 100, width) + PadDecimal(n % 100, 2)
  {
    assert n / 10 / 10 == n / 100;
    assert n % 100 / 10 == n / 10 % 10 && n % 100 % 10 == n % 10;
    calc {
      PadDecimal(n, width + 2);
      PadDecimal(n / 10, width + 1) + [DigitChar(n % 10)];
      PadDecimal(n / 100, width) + [DigitChar(n / 10 % 10)] + [DigitChar(n % 10)];
    }
    calc {
      PadDecimal(n % 100, 2);
      PadDecimal(n % 100 / 10, 1) + [DigitChar(n % 10)];
      PadDecimal(n % 100 / 100, 0) + [DigitChar(n / 10 % 10)] + [DigitChar(n % 10)];
    }
  }

  /** Python's `str(n)` for a natural number: decimal, no leading zeros. */
  function NatToString(n: nat): (s: string)
    ensures |s| >= 1 && AllDigits(s)
  {
    if n < 10 then [DigitChar(n)] else NatToString(n / 10) + [DigitChar(n % 10)]
  }

  lemma {:induction false} DecimalValueOfNatToString(n: nat)
    ensures DecimalValue(NatToString(n)) == n
  {
    var s := NatToString(n);
    if n >= 10 {
      assert s[..|s| - 1] == NatToString(n / 10);
      DecimalValueOfNatToString(n / 10);
    }
  }

  /** Python's `str(i)` for an integer. */
  function IntToString(i: int): string
  {
    if i < 0 then "-" + NatToString(-i) else NatToString(i)
  }

  /** Python's `int(s)` restricted to an optional sign followed by decimal digits;
      anything else is the `ValueError` case, `None`. */
  function ParseInt(s: string): (r: Option<int>)
    ensures r.Some? ==> |s| > 0 && forall i | 0 <= i < |s| :: IsDigit(s[i]) || (i == 0 && (s[i] == '-' || s[i] == '+'))
  {
    if |s| > 0 && (s[0] == '-' || s[0] == '+') then
      if |s| > 1 && AllDigits(s[1..]) then
        var magnitude: int := DecimalValue(s[1..]);
        Some(if s[0] == '-' then -magnitude else magnitude)
      else None
    else if |s| > 0 && AllDigits(s) then Some(DecimalValue(s))
    else None
  }

  lemma ParseIntOfIntToString(i: int)
    ensures ParseInt(IntToString(i)) == Some(i)
  {
    var s := IntToString(i);
    if i < 0 {
      var digits := NatToString(-i);
      assert s[1..] == digits;
      assert s[0] == '-' && |s| > 1;
      DecimalValueOfNatToString(-i);
    } else {
      assert IsDigit(s[0]);
      DecimalValueOfNatToString(i);
    }
  }

  // ---------------------------------------------------------------------------
  // Hexadecimal digits

  predicate IsHexDigit(c: char) { IsDigit(c) || 'a' <= c <= 'f' || 'A' <= c <= 'F' }

  predicate AllHex(s: string) { forall i | 0 <= i < |s| :: IsHexDigit(s[i]) }

  function HexDigitValue(c: char): (d: nat)
    requires IsHexDigit(c)
    ensures d < 16
  {
    if IsDigit(c) then DigitValue(c)
    else if 'a' <= c <= 'f' then c as int - 'a' as int + 10
    else c as int - 'A' as int + 10
  }

  function HexDigitChar(d: nat): (c: char)
    requires d < 16
    ensures IsHexDigit(c) && HexDigitValue(c) == d
  {
    if d < 10 then DigitChar(d) else ('a' as int + d - 10) as char
  }

  /** The value of a string of hexadecimal digits, most significant first. */
  function HexValue(s: string): (v: nat)
    requires AllHex(s)
    ensures v < Pow(16, |s|)
  {
    if |s| == 0 then 0 else 16 * HexValue(s[..|s| - 1]) + HexDigitValue(s[|s| - 1])
  }

  /** Python's `int(s, 16)` restricted to plain hexadecimal digits. */
  function ParseHex(s: string): (r: Option<nat>)
    ensures r.Some? <==> |s| > 0 && AllHex(s)
    ensures r.Some? ==> r.value < Pow(16, |s|)
  {
    if |s| > 0 && AllHex(s) then Some(HexValue(s)) else None
  }

  /** `n` in exactly `width` lower-case hexadecimal digits, zero-padded on the left. */
  function PadHex(n: nat, width: nat): (s: string)
    ensures |s| == width && AllHex(s)
  {
    if width == 0 then [] else PadHex(n / 16, width - 1) + [HexDigitChar(n % 16)]
  }

  lemma {:induction false} HexValueOfPadHex(n: nat, width: nat)
    requires n < Pow(16, width)
    ensures HexValue(PadHex(n, width)) == n
  {
    if width > 0 {
      var s := PadHex(n, width);
      var init := PadHex(n / 16, width - 1);
      assert s == init + [HexDigitChar(n % 16)];
      assert s[..|s| - 1] == init;
      assert n / 16 < Pow(16, width - 1);
      HexValueOfPadHex(n / 16, width - 1);
      assert HexValue(s) == 16 * HexValue(init) + n % 16;
    }
  }

  /** A hexadecimal digit in lower case. */
  function LowerHexDigit(c: char): (l: char)
    requires IsHexDigit(c)
  {
    if 'A' <= c <= 'F' then (c as int - 'A' as int + 'a' as int) as char else c
  }

  /** Hexadecimal text with its letters in lower case. */
  function LowerHex(s: string): (l: string)
    requires AllHex(s)
    ensures |l| == |s|
  {
    if |s| == 0 then [] else LowerHex(s[..|s| - 1]) + [LowerHexDigit(s[|s| - 1])]
  }

  /** Writing a digit's value back gives the digit, in lower case. */
  lemma HexDigitCharOfValue(c: char)
    requires IsHexDigit(c)
    ensures HexDigitChar(HexDigitValue(c)) == LowerHexDigit(c)
  {
  }

  /** The other direction of the round trip: the value of hexadecimal text,
      written back at the same width, is that text in lower case. So upper- and
      lower-case letters have the same value. */
  lemma {:induction false} PadHexOfHexValue(s: string)
    requires AllHex(s)
    ensures PadHex(HexValue(s), |s|) == LowerHex(s)
  {
    if |s| > 0 {
      var init := s[..|s| - 1];
      var c := s[|s| - 1];
      var v := HexValue(s);
      assert v / 16 == HexValue(init) && v % 16 == HexDigitValue(c);
      PadHexOfHexValue(init);
      HexDigitCharOfValue(c);
    }
  }

  // ---------------------------------------------------------------------------
  // str.split with an explicit one-character separator

  function CountChar(s: string, c: char): (n: nat)
    ensures n == 0 <==> c !in s
  {
    if |s| == 0 then 0
    else
      assert s == [s[0]] + s[1..];
      (if s[0] == c then 1 else 0) + CountChar(s[1..], c)
  }

  /** Python's `s.split(sep)`: the pieces between occurrences of `sep`, so there is
      always one more piece than there are separators. */
  function Split(s: string, sep: char): (parts: seq<string>)
    ensures |parts| == CountChar(s, sep) + 1
    ensures forall i | 0 <= i < |parts| :: sep !in parts[i]
    decreases |s|
  {
    if |s| == 0 then [""]
    else
      var rest := Split(s[1..], sep);
      if s[0] == sep then [""] + rest
      else [[s[0]] + rest[0]] + rest[1..]
  }

  /** `sep.join(parts)`. */
  function Join(parts: seq<string>, sep: char): string
    requires |parts| > 0
  {
    if |parts| == 1 then parts[0] else parts[0] + [sep] + Join(parts[1..], sep)
  }

  /** Joining the pieces of a split with the same separator gives back the text. */
  lemma {:induction false} JoinSplit(s: string, sep: char)
    ensures Join(Split(s, sep), sep) == s
    decreases |s|
  {
    if |s| > 0 {
      var rest := Split(s[1..], sep);
      JoinSplit(s[1..], sep);
      if s[0] == sep {
        assert Split(s, sep)[1..] == rest;
        assert s == [sep] + s[1..];
      } else if |rest| == 1 {
        assert s == [s[0]] + s[1..];
      } else {
        var parts := Split(s, sep);
        assert parts[1..] == rest[1..];
        assert Join(rest, sep) == rest[0] + [sep] + Join(rest[1..], sep);
        assert s == [s[0]] + s[1..];
      }
    }
  }

  /** Splitting pieces joined by a separator none of them contains gives the pieces back. */
  lemma {:induction false} SplitJoin(parts: seq<string>, sep: char)
    requires |parts| > 0 && forall i | 0 <= i < |parts| :: sep !in parts[i]
    ensures Split(Join(parts, sep), sep) == parts
  {
    if |parts| == 1 {
      SplitWithoutSeparator(parts[0], sep);
    } else {
      SplitJoin(parts[1..], sep);
      SplitAtSeparator(parts[0], Join(parts[1..], sep), sep);
    }
  }

  lemma {:induction false} SplitWithoutSeparator(x: string, sep: char)
    requires sep !in x
    ensures Split(x, sep) == [x]
  {
    if |x| > 0 {
      assert sep !in x[1..] by { assert forall i | 0 <= i < |x[1..]| :: x[1..][i] == x[i + 1]; }
      SplitWithoutSeparator(x[1..], sep);
      assert [x[0]] + x[1..] == x;
    }
  }

  lemma {:induction false} SplitAtSeparator(x: string, y: string, sep: char)
    requires sep !in x
    ensures Split(x + [sep] + y, sep) == [x] + Split(y, sep)
  {
    var s := x + [sep] + y;
    if |x| == 0 {
      assert s[1..] == y;
    } else {
      assert sep !in x[1..] by { assert forall i | 0 <= i < |x[1..]| :: x[1..][i] == x[i + 1]; }
      assert s[1..] == x[1..] + [sep] + y;
      SplitAtSeparator(x[1..], y, sep);
      assert [x[0]] + x[1..] == x;
    }
  }

  /** The first piece of a split begins with every character of `s` up to the
      first separator. */
  lemma {:induction false} SplitFirstPieceKeepsPrefix(s: string, sep: char, k: nat)
    requires k <= |s| && sep !in s[..k]
    ensures |Split(s, sep)[0]| >= k && Split(s, sep)[0][..k] == s[..k]
  {
    if k > 0 {
      assert s[0] == s[..k][0];
      assert s[..k] == [s[0]] + s[1..][..k - 1];
      SplitFirstPieceKeepsPrefix(s[1..], sep, k - 1);
      var rest := Split(s[1..], sep);
      assert Split(s, sep)[0] == [s[0]] + rest[0];
      assert ([s[0]] + rest[0])[..k] == [s[0]] + rest[0][..k - 1];
    }
  }

  // ---------------------------------------------------------------------------
  // str.strip and str.zfill

  /** Python's `str.isspace` for a single character. */
  predicate IsSpace(c: char)
  {
    c == ' ' || '\t' <= c <= '\r' || '\U{1C}' <= c <= '\U{1F}' || c == '\U{85}' || c == '\U{A0}'
    || c == '\U{1680}' || '\U{2000}' <= c <= '\U{200A}' || c == '\U{2028}' || c == '\U{2029}'
    || c == '\U{202F}' || c == '\U{205F}' || c == '\U{3000}'
  }

  /** `s` without its leading whitespace: a suffix of `s`, everything dropped is
      whitespace, and what is left does not start with whitespace. */
  function StripLeft(s: string): (r: string)
    ensures |r| <= |s| && r == s[|s| - |r|..]
    ensures forall i | 0 <= i < |s| - |r| :: IsSpace(s[i])
    ensures |r| > 0 ==> !IsSpace(r[0])
  {
    if |s| > 0 && IsSpace(s[0]) then StripLeft(s[1..]) else s
  }

  /** `s` without its trailing whitespace: a prefix of `s`, everything dropped is
      whitespace, and what is left does not end with whitespace. */
  function StripRight(s: string): (r: string)
    ensures |r| <= |s| && r == s[..|r|]
    ensures forall i | |r| <= i < |s| :: IsSpace(s[i])
    ensures |r| > 0 ==> !IsSpace(r[|r| - 1])
  {
    if |s| > 0 && IsSpace(s[|s| - 1]) then StripRight(s[..|s| - 1]) else s
  }

  /** Python's `str.strip()`. */
  function Strip(s: string): string
  {
    StripRight(StripLeft(s))
  }

  lemma StripIdempotent(s: string)
    ensures Strip(Strip(s)) == Strip(s)
    ensures var t := Strip(s); |t| > 0 ==> !IsSpace(t[0]) && !IsSpace(t[|t| - 1])
  {
    var l := StripLeft(s);
    var t := StripRight(l);
    assert |t| > 0 ==> t[0] == l[0];
    assert StripLeft(t) == t;
    assert StripRight(t) == t;
  }

  /** Python's `s.zfill(width)`: left-pads with '0' to `width`, keeping a leading
      sign in front of the padding. */
  function ZFill(s: string, width: nat): (r: string)
    ensures |r| == if |s| >= width then |s| else width
    ensures |s| >= width ==> r == s
    ensures |s| < width && (|s| == 0 || (s[0] != '+' && s[0] != '-')) ==> r == Zeros(width - |s|) + s
  {
    if |s| >= width then s
    else if |s| > 0 && (s[0] == '+' || s[0] == '-') then [s[0]] + Zeros(width - |s|) + s[1..]
    else Zeros(width - |s|) + s
  }

  function Zeros(n: nat): (z: string)
    ensures |z| == n && forall i | 0 <= i < n :: z[i] == '0'
  {
    if n == 0 then [] else Zeros(n - 1) + ['0']
  }
}
