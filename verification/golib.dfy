/**
 * The small part of Go's runtime and standard library that the hashing
 * server relies on, stated exactly: 64-bit two's-complement integers,
 * integer division that truncates toward zero, `strconv.ParseInt` in base 10,
 * decimal formatting of integers (as `fmt.Fprintln` prints an `int64`) and
 * `strings.Split` with a one-character separator.
 */
module GoLib {

  const INT32_MIN: int := -0x8000_0000
  const INT32_MAX: int := 0x7FFF_FFFF
  const INT64_MIN: int := -0x8000_0000_0000_0000
  const INT64_MAX: int := 0x7FFF_FFFF_FFFF_FFFF
  const TWO_TO_64: int := 0x1_0000_0000_0000_0000

  /** Go's `int64`. */
  newtype int64 = x: int | -0x8000_0000_0000_0000 <= x < 0x8000_0000_0000_0000

  datatype Option<T> = None | Some(value: T)

  /** The value an `int64` addition or increment leaves behind: the true result modulo 2^64. */
  function Wrap64(x: int): (r: int64)
    ensures INT64_MIN <= x <= INT64_MAX ==> r as int == x
    ensures x > INT64_MAX && x <= INT64_MAX + TWO_TO_64 ==> r as int == x - TWO_TO_64
    ensures (x - r as int) % TWO_TO_64 == 0
  {
    var m := x % TWO_TO_64;
    if m <= INT64_MAX then m as int64 else (m - TWO_TO_64) as int64
  }

  /** Go's `a / 2`: the quotient is truncated toward zero, not rounded down. */
  function Half(a: int): (q: int)
    ensures a >= 0 ==> 0 <= q && 2 * q <= a <= 2 * q + 1
    ensures a < 0 ==> q <= 0 && 2 * q - 1 <= a <= 2 * q
  {
    if a >= 0 then a / 2 else -((-a) / 2)
  }

  // ---------------------------------------------------------------------
  // Decimal digits

  predicate IsDigit(c: char) {
    '0' <= c <= '9'
  }

  predicate AllDigits(s: string) {
    forall i :: 0 <= i < |s| ==> IsDigit(s[i])
  }

  function DigitChar(d: nat): (c: char)
    requires d < 10
    ensures IsDigit(c) && c as int - '0' as int == d
  {
    ('0' as int + d) as char
  }

  /** The number a string of decimal digits denotes, most significant digit first. */
  function DecimalValue(s: string): nat
    requires AllDigits(s)
  {
    if s == [] then 0 else 10 * DecimalValue(s[..|s| - 1]) + (s[|s| - 1] as int - '0' as int)
  }

  /** The shortest decimal spelling of `n` (no sign, no leading zeros). */
  function FormatDecimal(n: nat): (s: string)
    ensures s != [] && AllDigits(s)
    ensures |s| > 1 ==> s[0] != '0'
  {
    if n < 10 then [DigitChar(n)] else FormatDecimal(n / 10) + [DigitChar(n % 10)]
  }

  lemma {:induction false} DecimalRoundTrip(n: nat)
    ensures DecimalValue(FormatDecimal(n)) == n
  {
    if n >= 10 {
      DecimalRoundTrip(n / 10);
      var s := FormatDecimal(n);
      assert s[..|s| - 1] == FormatDecimal(n / 10);
    }
  }

  /** How `fmt` prints an integer: a minus sign for negatives, then the decimal digits. */
  function FormatInt(n: int): (s: string)
    ensures s != [] && (s[0] == '-' <==> n < 0)
    ensures n < 0 ==> |s| >= 2
    ensures AllDigits(if n < 0 then s[1..] else s)
  {
    if n < 0 then "-" + FormatDecimal(-n) else FormatDecimal(n)
  }

  // ---------------------------------------------------------------------
  // strconv.ParseInt(s, 10, bitSize)

  /** The two bit sizes the server passes to `strconv.ParseInt`. */
  datatype BitSize = Bits32 | Bits64

  function MinOf(bits: BitSize): int {
    if bits == Bits32 then INT32_MIN else INT64_MIN
  }

  function MaxOf(bits: BitSize): int {
    if bits == Bits32 then INT32_MAX else INT64_MAX
  }

  /**
   * `strconv.ParseInt(s, 10, bits)`: an optional `+` or `-`, then one or more
   * decimal digits and nothing else, whose value fits in `bits` bits. Every
   * other input is an error (syntax or range error; the server does not
   * distinguish them), modelled as `None`.
   */
  function ParseInt(s: string, bits: BitSize): (r: Option<int>)
    ensures r.Some? ==> MinOf(bits) <= r.value <= MaxOf(bits)
  {
    if s == [] then None
    else
      var digits := if s[0] == '+' || s[0] == '-' then s[1..] else s;
      if digits == [] || !AllDigits(digits) then None
      else
        var u: int := DecimalValue(digits);
        var v := if s[0] == '-' then -u else u;
        if MinOf(bits) <= v <= MaxOf(bits) then Some(v) else None
  }

  /** A run of `0` characters. */
  predicate Zeros(zs: string) {
    forall i :: 0 <= i < |zs| ==> zs[i] == '0'
  }

  /** The signs `strconv.ParseInt` allows in front of the digits. */
  predicate IsSign(sign: string) {
    sign == "" || sign == "+" || sign == "-"
  }

  /** A decimal spelling of the magnitude `m`: a sign, padding zeros, then the shortest digits. */
  function Spelling(sign: string, zs: string, m: nat): string {
    sign + zs + FormatDecimal(m)
  }

  lemma {:induction false} ZerosValue(zs: string)
    requires Zeros(zs)
    ensures AllDigits(zs) && DecimalValue(zs) == 0
  {
    if zs != [] {
      ZerosValue(zs[..|zs| - 1]);
    }
  }

  /** Leading zeros do not change the value of a digit string. */
  lemma {:induction false} PaddedValue(zs: string, t: string)
    requires Zeros(zs) && AllDigits(t)
    ensures AllDigits(zs + t) && DecimalValue(zs + t) == DecimalValue(t)
  {
    if t == [] {
      assert zs + t == zs;
      ZerosValue(zs);
    } else {
      var init := t[..|t| - 1];
      PaddedValue(zs, init);
      assert (zs + t)[..|zs + t| - 1] == zs + init;
    }
  }

  /** Padding zeros in front of the shortest digits of `m` still spell `m`. */
  lemma PaddedDigits(zs: string, m: nat)
    requires Zeros(zs)
    ensures var t := zs + FormatDecimal(m); t != [] && AllDigits(t) && DecimalValue(t) == m
  {
    DecimalRoundTrip(m);
    PaddedValue(zs, FormatDecimal(m));
  }

  /** Every digit string is some zeros followed by the shortest spelling of its value. */
  lemma {:induction false} LeadingZeros(d: string) returns (zs: string)
    requires AllDigits(d) && d != []
    ensures Zeros(zs) && d == zs + FormatDecimal(DecimalValue(d))
  {
    var init, c := d[..|d| - 1], d[|d| - 1];
    assert d == init + [c];
    if init == [] {
      zs := [];
    } else {
      var padding := LeadingZeros(init);
      if DecimalValue(init) == 0 {
        zs := init;
        assert init == padding + ['0'];
      } else {
        zs := padding;
        assert FormatDecimal(DecimalValue(d)) == FormatDecimal(DecimalValue(init)) + [c];
      }
    }
  }

  /** The sign and the digits `ParseInt` reads a value from. */
  lemma SignAndDigits(s: string, bits: BitSize, v: int) returns (sign: string, digits: string)
    requires ParseInt(s, bits) == Some(v)
    ensures IsSign(sign) && s == sign + digits
    ensures digits != [] && AllDigits(digits) && DecimalValue(digits) == if v < 0 then -v else v
    ensures (v < 0 ==> sign == "-") && (v > 0 ==> sign != "-")
  {
    var signed := s[0] == '+' || s[0] == '-';
    sign := if signed then [s[0]] else "";
    digits := if signed then s[1..] else s;
    assert s == sign + digits;
  }

  /** A sign followed by digits is a spelling of the digits' value. */
  lemma SpellDigits(sign: string, digits: string) returns (zs: string)
    requires digits != [] && AllDigits(digits)
    ensures Zeros(zs) && sign + digits == Spelling(sign, zs, DecimalValue(digits))
  {
    zs := LeadingZeros(digits);
  }

  /**
   * What `ParseInt` accepts: an optional sign, padding zeros and the shortest
   * digits of the magnitude of the value read, with a minus sign on every
   * negative value and on no positive one.
   */
  lemma ParseIntAccepted(s: string, bits: BitSize, v: int)
    requires ParseInt(s, bits) == Some(v)
    ensures exists sign, zs :: && IsSign(sign) && Zeros(zs)
                               && s == Spelling(sign, zs, if v < 0 then -v else v)
                               && (v < 0 ==> sign == "-") && (v > 0 ==> sign != "-")
  {
    var sign, digits := SignAndDigits(s, bits, v);
    var zs := SpellDigits(sign, digits);
  }

  /** `ParseInt` on a sign followed by digits: the signed value of the digits, when it fits. */
  lemma ParseSignedDigits(sign: string, t: string, bits: BitSize)
    requires IsSign(sign) && t != [] && AllDigits(t)
    ensures var u: int := DecimalValue(t);
      var v := if sign == "-" then -u else u;
      ParseInt(sign + t, bits) == if MinOf(bits) <= v <= MaxOf(bits) then Some(v) else None
  {
    if sign == "" {
      assert sign + t == t && IsDigit(t[0]);
    } else {
      assert (sign + t)[1..] == t;
    }
  }

  lemma SpellingParts(sign: string, zs: string, m: nat)
    ensures Spelling(sign, zs, m) == sign + (zs + FormatDecimal(m))
  {
  }

  /** Conversely, every such spelling reads back as its signed value, exactly when that fits. */
  lemma ParseIntOfSpelling(sign: string, zs: string, m: nat, bits: BitSize)
    requires IsSign(sign) && Zeros(zs)
    ensures var v: int := if sign == "-" then -(m as int) else m;
      ParseInt(Spelling(sign, zs, m), bits) == if MinOf(bits) <= v <= MaxOf(bits) then Some(v) else None
  {
    PaddedDigits(zs, m);
    SpellingParts(sign, zs, m);
    ParseSignedDigits(sign, zs + FormatDecimal(m), bits);
  }

  /** Whatever `fmt` prints for an integer, `ParseInt` reads back, exactly when it fits. */
  lemma ParseFormatInt(n: int, bits: BitSize)
    ensures ParseInt(FormatInt(n), bits) == if MinOf(bits) <= n <= MaxOf(bits) then Some(n) else None
  {
    var m: nat := if n < 0 then -n else n;
    var sign := if n < 0 then "-" else "";
    DecimalRoundTrip(m);
    assert FormatInt(n) == sign + FormatDecimal(m);
    ParseSignedDigits(sign, FormatDecimal(m), bits);
  }

  // ---------------------------------------------------------------------
  // strings.Split(s, sep) for a one-character separator

  /**
   * The pieces of `s` between occurrences of `sep`: one more piece than there
   * are separators, empty pieces included (so `Split("", sep) == [""]`).
   */
  function Split(s: string, sep: char): (parts: seq<string>)
    ensures |parts| >= 1
    ensures forall i :: 0 <= i < |parts| ==> sep !in parts[i]
  {
    if s == [] then [""]
    else
      var rest := Split(s[1..], sep);
      if s[0] == sep then [""] + rest else [[s[0]] + rest[0]] + rest[1..]
  }

  /** `strings.Join(parts, sep)`. */
  function Join(parts: seq<string>, sep: char): string
  {
    if parts == [] then ""
    else if |parts| == 1 then parts[0]
    else parts[0] + [sep] + Join(parts[1..], sep)
  }

  /** Joining the pieces again gives back the string that was split. */
  lemma {:induction false} JoinSplit(s: string, sep: char)
    ensures Join(Split(s, sep), sep) == s
  {
    if s != [] {
      var rest := Split(s[1..], sep);
      JoinSplit(s[1..], sep);
      if s[0] != sep {
        var parts := Split(s, sep);
        if |rest| == 1 {
          assert parts == [[s[0]] + rest[0]];
        } else {
          assert parts[1..] == rest[1..];
          assert Join(parts, sep) == [s[0]] + rest[0] + [sep] + Join(rest[1..], sep);
        }
      }
    }
  }

  /** A string without the separator is a single piece. */
  lemma {:induction false} SplitWithoutSep(s: string, sep: char)
    requires sep !in s
    ensures Split(s, sep) == [s]
  {
    if s != [] {
      SplitWithoutSep(s[1..], sep);
      assert [s[0]] + s[1..] == s;
    }
  }

  /** Splitting at the first separator: the text before it is the first piece. */
  lemma {:induction false} SplitAtFirst(a: string, b: string, sep: char)
    requires sep !in a
    ensures Split(a + [sep] + b, sep) == [a] + Split(b, sep)
  {
    if a == [] {
      assert a + [sep] + b == [sep] + b;
      assert ([sep] + b)[1..] == b;
    } else {
      SplitAtFirst(a[1..], b, sep);
      assert (a + [sep] + b)[1..] == a[1..] + [sep] + b;
      assert [a[0]] + a[1..] == a;
    }
  }
}
