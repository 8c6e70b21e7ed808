/** Text formatting and parsing as the Go standard library performs it for the code modelled
    here: `%d` and `%X` of integers, strconv.Quote, strconv.ParseInt (base 10, 64 bits),
    strings.Join and strings.Split. */
module Text {

  // ----- Decimal digits -----

  predicate IsDigit(c: char) { '0' <= c <= '9' }

  predicate AllDigits(s: string) { forall k :: 0 <= k < |s| ==> IsDigit(s[k]) }

  function DigitValue(c: char): (d: nat)
    requires IsDigit(c)
    ensures d < 10
  {
    c as int - '0' as int
  }

  function DigitChar(d: nat): (c: char)
    requires d < 10
    ensures IsDigit(c) && DigitValue(c) == d
  {
    (d + '0' as int) as char
  }

  /** `%d` of a non-negative integer: its decimal digits, without leading zeros. */
  function NatToString(n: nat): (s: string)
    ensures |s| >= 1 && AllDigits(s)
    decreases n
  {
    if n < 10 then [DigitChar(n)] else NatToString(n / 10) + [DigitChar(n % 10)]
  }

  /** `%d` of any integer: a negative value is a minus sign followed by its magnitude. */
  function IntToString(i: int): (s: string)
    ensures |s| >= 1
    ensures i >= 0 ==> AllDigits(s)
    ensures i < 0 ==> s[0] == '-' && AllDigits(s[1..])
  {
    if i < 0 then "-" + NatToString(-i) else NatToString(i)
  }

  /** The value of a string of decimal digits, most significant digit first. */
  function DecimalValue(s: string): nat
    requires AllDigits(s)
    decreases |s|
  {
    if s == [] then 0 else DecimalValue(s[..|s| - 1]) * 10 + DigitValue(s[|s| - 1])
  }

  /** Printing a number in decimal and reading the digits back gives the number. */
  lemma {:induction false} DecimalRoundTrip(n: nat)
    ensures DecimalValue(NatToString(n)) == n
    decreases n
  {
    if n >= 10 {
      var s := NatToString(n);
      assert s[..|s| - 1] == NatToString(n / 10);
      DecimalRoundTrip(n / 10);
    }
  }

  lemma DecimalStep(s: string, i: nat)
    requires AllDigits(s) && i < |s|
    ensures DecimalValue(s[..i + 1]) == DecimalValue(s[..i]) * 10 + DigitValue(s[i])
  {
    assert s[..i + 1][..i] == s[..i];
  }

  /** A prefix of a digit string never denotes more than the whole string. */
  lemma {:induction false} DecimalPrefixBound(s: string, j: nat)
    requires AllDigits(s) && j <= |s|
    ensures DecimalValue(s[..j]) <= DecimalValue(s)
    decreases |s|
  {
    if j < |s| {
      var t := s[..|s| - 1];
      assert s[..j] == t[..j];
      DecimalPrefixBound(t, j);
    } else {
      assert s[..j] == s;
    }
  }

  // ----- Upper-case hexadecimal -----

  predicate IsUpperHexDigit(c: char) { '0' <= c <= '9' || 'A' <= c <= 'F' }

  predicate AllUpperHex(s: string) { forall k :: 0 <= k < |s| ==> IsUpperHexDigit(s[k]) }

  function HexDigitValue(c: char): (d: nat)
    requires IsUpperHexDigit(c)
    ensures d < 16
  {
    if c <= '9' then c as int - '0' as int else c as int - 'A' as int + 10
  }

  function HexDigitChar(d: nat): (c: char)
    requires d < 16
    ensures IsUpperHexDigit(c) && HexDigitValue(c) == d
  {
    if d < 10 then (d + '0' as int) as char else (d - 10 + 'A' as int) as char
  }

  /** `%X` of a non-negative integer: upper-case hexadecimal, without leading zeros. */
  function UpperHex(n: nat): (s: string)
    ensures |s| >= 1 && AllUpperHex(s)
    decreases n
  {
    if n < 16 then [HexDigitChar(n)] else UpperHex(n / 16) + [HexDigitChar(n % 16)]
  }

  /** The value of a string of upper-case hexadecimal digits, most significant first. */
  function HexValue(s: string): nat
    requires AllUpperHex(s)
    decreases |s|
  {
    if s == [] then 0 else HexValue(s[..|s| - 1]) * 16 + HexDigitValue(s[|s| - 1])
  }

  /** Printing a number with `%X` and reading the digits back gives the number. */
  lemma {:induction false} HexRoundTrip(n: nat)
    ensures HexValue(UpperHex(n)) == n
    decreases n
  {
    if n >= 16 {
      var s := UpperHex(n);
      assert s[..|s| - 1] == UpperHex(n / 16);
      HexRoundTrip(n / 16);
    }
  }

  function Pow16(d: nat): (p: nat)
    ensures p >= 1
  {
    if d == 0 then 1 else 16 * Pow16(d - 1)
  }

  /** `%X` of n fits in d digits exactly when n is below 16 to the power d. */
  lemma {:induction false} HexLength(n: nat, d: nat)
    requires d >= 1
    ensures |UpperHex(n)| <= d <==> n < Pow16(d)
    decreases n
  {
    assert Pow16(d) == 16 * Pow16(d - 1);
    if n >= 16 {
      assert |UpperHex(n)| == |UpperHex(n / 16)| + 1;
      if d == 1 {
        assert |UpperHex(n / 16)| >= 1;
      } else {
        HexLength(n / 16, d - 1);
        var q, p := n / 16, Pow16(d - 1);
        assert n == 16 * q + n % 16;
        if q < p {
          assert 16 * q <= 16 * (p - 1);
        } else {
          assert 16 * q >= 16 * p;
        }
      }
    }
  }

  function Zeros(k: nat): (s: string)
    ensures |s| == k && forall i :: 0 <= i < k ==> s[i] == '0'
  {
    seq(k, _ => '0')
  }

  lemma {:induction false} ZerosHexValue(k: nat)
    ensures AllUpperHex(Zeros(k)) && HexValue(Zeros(k)) == 0
    decreases k
  {
    if k > 0 {
      assert Zeros(k)[..k - 1] == Zeros(k - 1);
      ZerosHexValue(k - 1);
    }
  }

  /** Leading zeros do not change the value of a hexadecimal string. */
  lemma {:induction false} HexLeadingZeros(k: nat, s: string)
    requires AllUpperHex(s)
    ensures AllUpperHex(Zeros(k) + s) && HexValue(Zeros(k) + s) == HexValue(s)
    decreases |s|
  {
    ZerosHexValue(k);
    if s == [] {
      assert Zeros(k) + s == Zeros(k);
    } else {
      var t := Zeros(k) + s;
      assert t[..|t| - 1] == Zeros(k) + s[..|s| - 1];
      HexLeadingZeros(k, s[..|s| - 1]);
    }
  }

  /** Prefixing '0' characters until the string is `width` long; a longer string is kept. */
  function PadZeros(s: string, width: nat): (r: string)
    ensures |r| == if |s| < width then width else |s|
    ensures r == Zeros(|r| - |s|) + s
  {
    if |s| < width then Zeros(width - |s|) + s else Zeros(0) + s
  }

  // ----- Joining and splitting -----

  /** strings.Join (and the equivalent append loops): the parts with `sep` between neighbours. */
  function Join(parts: seq<string>, sep: string): string
    decreases |parts|
  {
    if |parts| == 0 then ""
    else if |parts| == 1 then parts[0]
    else Join(parts[..|parts| - 1], sep) + sep + parts[|parts| - 1]
  }

  /** The last position of c in s, or -1. */
  function LastIndexOf(s: string, c: char): (r: int)
    ensures -1 <= r < |s|
    ensures r >= 0 ==> s[r] == c
    ensures forall k :: r < k < |s| ==> s[k] != c
    decreases |s|
  {
    if s == [] then -1
    else if s[|s| - 1] == c then |s| - 1
    else LastIndexOf(s[..|s| - 1], c)
  }

  /** strings.Split on a one-character separator. */
  function Split(s: string, c: char): (parts: seq<string>)
    ensures |parts| >= 1
    decreases |s|
  {
    var i := LastIndexOf(s, c);
    if i < 0 then [s] else Split(s[..i], c) + [s[i + 1..]]
  }

  /** Splitting a joined list on its separator gives the list back, provided no part
      contains the separator. */
  lemma {:induction false} SplitJoin(parts: seq<string>, c: char)
    requires |parts| >= 1
    requires forall k :: 0 <= k < |parts| ==> c !in parts[k]
    ensures Split(Join(parts, [c]), c) == parts
    decreases |parts|
  {
    if |parts| == 1 {
      assert Join(parts, [c]) == parts[0];
      assert LastIndexOf(parts[0], c) < 0;
    } else {
      var init, last := parts[..|parts| - 1], parts[|parts| - 1];
      var front := Join(init, [c]);
      var s := Join(parts, [c]);
      assert s == front + [c] + last;
      var p := |front|;
      assert s[p] == c;
      assert forall k :: p < k < |s| ==> s[k] == last[k - p - 1];
      assert LastIndexOf(s, c) == p;
      assert s[..p] == front;
      assert s[p + 1..] == last;
      SplitJoin(init, c);
      assert init + [last] == parts;
    }
  }

  // ----- strconv.Quote -----

  function LowerHexDigit(d: nat): char
    requires d < 16
  {
    "0123456789abcdef"[d]
  }

  /** strconv.Quote of one character: backslash escapes for the double quote, the backslash
      and the ASCII control characters; any other character is written as itself. This is
      Go's behaviour for every ASCII character; a non-ASCII character that Go's
      `unicode.IsPrint` rejects would be written by Go as a `\u` escape instead. */
  function QuoteChar(c: char): string
  {
    var x := c as int;
    if c == '"' then "\\\""
    else if c == '\\' then "\\\\"
    else if x == 7 then "\\a"
    else if x == 8 then "\\b"
    else if x == 12 then "\\f"
    else if x == 10 then "\\n"
    else if x == 13 then "\\r"
    else if x == 9 then "\\t"
    else if x == 11 then "\\v"
    else if x < 32 || x == 127 then "\\x" + [LowerHexDigit(x / 16), LowerHexDigit(x % 16)]
    else [c]
  }

  function QuoteBody(s: string): string
    decreases |s|
  {
    if s == [] then "" else QuoteChar(s[0]) + QuoteBody(s[1..])
  }

  /** strconv.Quote (also Go's `%q` of a string), exact for ASCII text. */
  function Quote(s: string): string
  {
    "\"" + QuoteBody(s) + "\""
  }

  /** A printable ASCII character other than the double quote and the backslash: one that
      strconv.Quote writes as itself. */
  predicate IsPlain(c: char)
  {
    c != '"' && c != '\\' && 32 <= c as int < 127
  }

  /** A string of plain ASCII characters is quoted by surrounding it with double quotes. */
  lemma {:induction false} QuotePlain(s: string)
    requires forall k :: 0 <= k < |s| ==> IsPlain(s[k])
    ensures Quote(s) == "\"" + s + "\""
  {
    QuoteBodyPlain(s);
  }

  lemma {:induction false} QuoteBodyPlain(s: string)
    requires forall k :: 0 <= k < |s| ==> IsPlain(s[k])
    ensures QuoteBody(s) == s
    decreases |s|
  {
    if s != [] {
      QuoteBodyPlain(s[1..]);
      assert [s[0]] + s[1..] == s;
    }
  }

  // ----- strconv.ParseInt(s, 10, 64) -----

  datatype IntParse = Parsed(value: int) | SyntaxError | RangeError

  const MaxUint64: nat := 0xFFFF_FFFF_FFFF_FFFF
  /** 2^63: the magnitude bound of a signed 64-bit integer. */
  const Int64Cutoff: nat := 0x8000_0000_0000_0000

  /** ParseUint's digit loop from position i with the value read so far: a non-digit is a
      syntax error; a digit that would take the value past the unsigned 64-bit maximum is a
      range error at once, whatever follows. */
  function ScanUint(s: string, i: nat, acc: nat): (r: IntParse)
    requires i <= |s| && acc <= MaxUint64
    ensures r.Parsed? ==> 0 <= r.value <= MaxUint64
    decreases |s| - i
  {
    if i == |s| then Parsed(acc)
    else if !IsDigit(s[i]) then SyntaxError
    else if acc * 10 + DigitValue(s[i]) > MaxUint64 then RangeError
    else ScanUint(s, i + 1, acc * 10 + DigitValue(s[i]))
  }

  function ParseUint(s: string): (r: IntParse)
    ensures r.Parsed? ==> 0 <= r.value <= MaxUint64
  {
    if s == [] then SyntaxError else ScanUint(s, 0, 0)
  }

  /** strconv.ParseInt in base 10 with a 64-bit result: an optional sign, then digits. */
  function ParseInt(s: string): (r: IntParse)
    ensures r.Parsed? ==> -(Int64Cutoff as int) <= r.value < Int64Cutoff
  {
    if s == [] then SyntaxError
    else
      var neg := s[0] == '-';
      var digits := if s[0] == '+' || s[0] == '-' then s[1..] else s;
      match ParseUint(digits)
      case SyntaxError => SyntaxError
      // ParseUint reports the unsigned maximum with a range error; either sign test rejects it
      case RangeError => RangeError
      case Parsed(u) =>
        if !neg && u >= Int64Cutoff then RangeError
        else if neg && u > Int64Cutoff then RangeError
        else Parsed(if neg then -u else u)
  }

  /** The text of the *NumError that ParseInt returns for s. */
  function ParseIntError(s: string, r: IntParse): string
    requires !r.Parsed?
  {
    "strconv.ParseInt: parsing " + Quote(s) + ": "
      + (if r.SyntaxError? then "invalid syntax" else "value out of range")
  }

  lemma {:induction false} ScanDigits(s: string, i: nat)
    requires AllDigits(s) && i <= |s| && DecimalValue(s) <= MaxUint64
    ensures DecimalValue(s[..i]) <= MaxUint64
    ensures ScanUint(s, i, DecimalValue(s[..i])) == Parsed(DecimalValue(s))
    decreases |s| - i
  {
    if i == |s| {
      assert s[..i] == s;
    } else {
      DecimalStep(s, i);
      DecimalPrefixBound(s, i + 1);
      ScanDigits(s, i + 1);
    }
  }

  /** The sign ParseInt accepts in front of the digits: one `+` or `-`, or none. */
  function SignLength(s: string): (n: nat)
    ensures n <= |s|
  {
    if s != [] && (s[0] == '+' || s[0] == '-') then 1 else 0
  }

  /** What follows the optional sign. */
  function Unsigned(s: string): string
  {
    s[SignLength(s)..]
  }

  /** Text in ParseInt's base-10 syntax: an optional sign, then one or more digits. */
  predicate IsDecimalInt(s: string)
  {
    |Unsigned(s)| >= 1 && AllDigits(Unsigned(s))
  }

  /** The integer that base-10 text denotes. */
  function SignedValue(s: string): int
    requires IsDecimalInt(s)
  {
    var v: int := DecimalValue(Unsigned(s));
    if s[0] == '-' then -v else v
  }

  predicate InInt64(v: int)
  {
    -(Int64Cutoff as int) <= v < Int64Cutoff
  }

  /** The longest run of digits at the start of s. */
  function LeadingDigits(s: string): (r: string)
    ensures |r| <= |s| && r == s[..|r|] && AllDigits(r)
    ensures |r| < |s| ==> !IsDigit(s[|r|])
    decreases |s|
  {
    if s == [] || !IsDigit(s[0]) then []
    else
      var t := LeadingDigits(s[1..]);
      assert s[1..][..|t|] == s[1..|t| + 1];
      [s[0]] + t
  }

  /** ParseUint's loop over a run of digits d followed by anything: it leaves the run with d's
      value, or stops with a range error as soon as the value passes the unsigned maximum. */
  lemma {:induction false} ScanRun(d: string, rest: string, i: nat)
    requires AllDigits(d) && i <= |d| && DecimalValue(d[..i]) <= MaxUint64
    ensures ScanUint(d + rest, i, DecimalValue(d[..i]))
            == if DecimalValue(d) > MaxUint64 then RangeError
               else ScanUint(d + rest, |d|, DecimalValue(d))
    decreases |d| - i
  {
    if i == |d| {
      assert d[..i] == d;
    } else {
      assert (d + rest)[i] == d[i];
      DecimalStep(d, i);
      if DecimalValue(d[..i + 1]) > MaxUint64 {
        DecimalPrefixBound(d, i + 1);
      } else {
        ScanRun(d, rest, i + 1);
      }
    }
  }

  /** ParseInt on every input. Base-10 text parses to the integer it denotes when that fits in
      64 bits, and is a range error otherwise. Any other text is a syntax error, except when the
      digits before its first non-digit already pass the unsigned 64-bit maximum: ParseUint
      reports that range error before it reaches the non-digit. */
  lemma ParseIntMeaning(s: string)
    ensures IsDecimalInt(s) ==>
      ParseInt(s) == if InInt64(SignedValue(s)) then Parsed(SignedValue(s)) else RangeError
    ensures !IsDecimalInt(s) ==>
      ParseInt(s) == if DecimalValue(LeadingDigits(Unsigned(s))) > MaxUint64 then RangeError
                     else SyntaxError
  {
    var d := Unsigned(s);
    var l := LeadingDigits(d);
    var rest := d[|l|..];
    assert d == l + rest;
    assert l[..0] == [];
    ScanRun(l, rest, 0);
    if |l| < |d| {
      assert !IsDigit((l + rest)[|l|]);
    } else {
      assert rest == [];
      assert l + rest == l;
    }
  }

  /** Exactly the base-10 texts whose value fits in 64 bits parse, each to that value. */
  lemma ParseIntAccepts(s: string)
    ensures ParseInt(s).Parsed? <==> IsDecimalInt(s) && InInt64(SignedValue(s))
    ensures ParseInt(s).Parsed? ==> ParseInt(s).value == SignedValue(s)
  {
    ParseIntMeaning(s);
  }

  /** Empty digits, or a non-digit straight after the optional sign, is a syntax error. */
  lemma ParseIntNonDigit(s: string)
    requires Unsigned(s) == [] || !IsDigit(Unsigned(s)[0])
    ensures ParseInt(s) == SyntaxError
  {
    ParseIntMeaning(s);
    assert LeadingDigits(Unsigned(s)) == [];
  }

  /** Every 64-bit integer printed with `%d` is parsed back by ParseInt to itself. */
  lemma ParseIntRoundTrip(v: int)
    requires -(Int64Cutoff as int) <= v < Int64Cutoff
    ensures ParseInt(IntToString(v)) == Parsed(v)
  {
    var m: nat := if v < 0 then -v else v;
    var d := NatToString(m);
    DecimalRoundTrip(m);
    assert d[..0] == [];
    ScanDigits(d, 0);
    assert ParseUint(d) == Parsed(m);
    var s := IntToString(v);
    if v < 0 {
      assert s[1..] == d;
    } else {
      assert s == d && IsDigit(s[0]);
    }
  }
}
