/** Packed decimal (BCD) values and their text form (types.rs). */
module PackedDecimal {
  import opened Arithmetic
  import opened Wire

  type Nibble = n: nat | n < 16

  // ---- Powers of ten, values and digits ----

  function Pow10(k: nat): (p: nat)
    ensures p >= 1
  {
    if k == 0 then 1 else 10 * Pow10(k - 1)
  }

  predicate AreDigits(ds: seq<nat>) {
    forall i | 0 <= i < |ds| :: ds[i] < 10
  }

  /** The number a digit string denotes. */
  function Val(ds: seq<nat>): nat {
    if ds == [] then 0 else Val(ds[..|ds| - 1]) * 10 + ds[|ds| - 1]
  }

  /** The last k decimal digits of n. */
  function Digits(n: nat, k: nat): (ds: seq<nat>)
    ensures |ds| == k && AreDigits(ds)
  {
    if k == 0 then [] else Digits(n / 10, k - 1) + [n % 10]
  }

  /** The decimal numeral of n, without leading zeros. */
  function Numeral(n: nat): (ds: seq<nat>)
    ensures ds != [] && AreDigits(ds)
  {
    if n < 10 then [n] else Numeral(n / 10) + [n % 10]
  }

  lemma {:induction false} Pow10Add(a: nat, b: nat)
    ensures Pow10(a + b) == Pow10(a) * Pow10(b)
  {
    if a > 0 {
      Pow10Add(a - 1, b);
      assert 10 * (Pow10(a - 1) * Pow10(b)) == (10 * Pow10(a - 1)) * Pow10(b);
    }
  }

  lemma {:induction false} Pow10Monotone(a: nat, b: nat)
    requires a <= b
    ensures Pow10(a) <= Pow10(b)
    decreases b
  {
    if a < b {
      Pow10Monotone(a, b - 1);
    }
  }

  lemma {:induction false} ValAppend(a: seq<nat>, b: seq<nat>)
    ensures Val(a + b) == Val(a) * Pow10(|b|) + Val(b)
  {
    if b == [] {
      assert a + b == a;
    } else {
      var init, last := b[..|b| - 1], b[|b| - 1];
      assert (a + b)[..|a + b| - 1] == a + init && (a + b)[|a + b| - 1] == last;
      ValAppend(a, init);
      ShiftSum(Val(a), Pow10(|init|), Val(init));
    }
  }

  lemma ShiftSum(x: nat, p: nat, y: nat)
    ensures (x * p + y) * 10 == x * (10 * p) + y * 10
  {}

  lemma {:induction false} ValBound(ds: seq<nat>)
    requires AreDigits(ds)
    ensures Val(ds) < Pow10(|ds|)
  {
    if ds != [] {
      ValBound(ds[..|ds| - 1]);
    }
  }

  /** A digit string of known length is determined by its value. */
  lemma {:induction false} DigitsOfVal(ds: seq<nat>)
    requires AreDigits(ds)
    ensures Digits(Val(ds), |ds|) == ds
  {
    if ds != [] {
      DigitsOfVal(ds[..|ds| - 1]);
      assert ds == ds[..|ds| - 1] + [ds[|ds| - 1]];
    }
  }

  lemma {:induction false} ValOfDigits(n: nat, k: nat)
    ensures n < Pow10(k) ==> Val(Digits(n, k)) == n
  {
    if k > 0 {
      ValOfDigits(n / 10, k - 1);
      assert (Digits(n / 10, k - 1) + [n % 10])[..k - 1] == Digits(n / 10, k - 1);
    }
  }

  /** n without its last k digits. */
  function Shifted(n: nat, k: nat): nat {
    Div(n, Pow10(k))
  }

  lemma ShiftedNext(n: nat, k: nat)
    ensures Shifted(n, 0) == n
    ensures Shifted(n / 10, k) == Shifted(n, k + 1)
  {
    DivDiv(n, 10, Pow10(k));
  }

  lemma DivDiv(n: nat, a: nat, b: nat)
    requires a > 0 && b > 0
    ensures n / a / b == n / (a * b)
  {
    var q, r := n / a / b, n / a % b;
    assert n == (q * b + r) * a + n % a;
    var rest := r * a + n % a;
    assert n == q * (a * b) + rest;
    assert r * a <= (b - 1) * a;
    assert rest < a * b;
    Quotient(n, a * b, q, rest);
  }

  /** The last a + b digits are the last a digits of the quotient and the last b digits. */
  lemma {:induction false} DigitsSplit(n: nat, a: nat, b: nat)
    ensures Digits(n, a + b) == Digits(Shifted(n, b), a) + Digits(n, b)
    decreases b
  {
    hide Shifted;
    if b == 0 {
      ShiftedNext(n, 0);
      assert Digits(n, a) + [] == Digits(n, a);
    } else {
      DigitsSplit(n / 10, a, b - 1);
      ShiftedNext(n, b - 1);
    }
  }

  // ---- Text ----

  predicate IsDigit(c: char) {
    '0' <= c <= '9'
  }

  predicate AllDigits(text: string) {
    forall i | 0 <= i < |text| :: IsDigit(text[i])
  }

  function DigitChar(n: Nibble): char {
    ('0' as int + n) as char
  }

  function Chars(ds: seq<nat>): string
    requires forall i | 0 <= i < |ds| :: ds[i] < 16
  {
    seq(|ds|, i requires 0 <= i < |ds| => DigitChar(ds[i]))
  }

  function Nums(text: string): (ds: seq<nat>)
    requires AllDigits(text)
    ensures |ds| == |text| && AreDigits(ds)
  {
    seq(|text|, i requires 0 <= i < |text| => text[i] as int - '0' as int)
  }

  function StripZeros(text: string): string {
    if text != "" && text[0] == '0' then StripZeros(text[1..]) else text
  }

  function Zeros(n: nat): string {
    seq(n, _ => '0')
  }

  /** `char::is_whitespace`: the Unicode property White_Space. */
  predicate IsWhiteSpace(c: char) {
    var n := c as int;
    || 0x9 <= n <= 0xD || n == 0x20 || n == 0x85 || n == 0xA0 || n == 0x1680 || 0x2000 <= n <= 0x200A
    || n == 0x2028 || n == 0x2029 || n == 0x202F || n == 0x205F || n == 0x3000
  }

  function TrimStart(text: string): string {
    if text != "" && IsWhiteSpace(text[0]) then TrimStart(text[1..]) else text
  }

  function TrimEnd(text: string): string {
    if text != "" && IsWhiteSpace(text[|text| - 1]) then TrimEnd(text[..|text| - 1]) else text
  }

  function Trim(text: string): string {
    TrimEnd(TrimStart(text))
  }

  /** The text before and after the first dot; all of it and nothing if there is none. */
  function SplitAtDot(text: string): (string, string) {
    if text == "" then ("", "")
    else if text[0] == '.' then ("", text[1..])
    else
      var (before, after) := SplitAtDot(text[1..]);
      ([text[0]] + before, after)
  }

  /** The number n / 10^places in units of 10^-scale, truncated. */
  function Truncated(n: nat, places: nat, scale: nat): nat {
    Div(n * Pow10(scale), Pow10(places))
  }

  /** The parts of a decimal literal. */
  datatype Literal = Literal(negative: bool, integer: string, fraction: string)
  {
    predicate WellFormed() {
      |integer| + |fraction| > 0 && AllDigits(integer) && AllDigits(fraction)
    }

    /** The literal's magnitude in units of 10^-scale, truncated toward zero. */
    function Units(scale: nat): nat
      requires WellFormed()
    {
      Truncated(Val(Nums(integer) + Nums(fraction)), |fraction|, scale)
    }
  }

  function ParseLiteral(text: string): Literal {
    var value := Trim(text);
    var negative := value != "" && value[0] == '-';
    var unsigned := if value != "" && (value[0] == '-' || value[0] == '+') then value[1..] else value;
    var (integer, fraction) := SplitAtDot(unsigned);
    Literal(negative, integer, fraction)
  }

  // ---- Nibbles ----

  function Unpack(data: Bytes): (nibbles: seq<Nibble>)
    ensures |nibbles| == 2 * |data|
  {
    if data == [] then []
    else
      var last := data[|data| - 1];
      Unpack(data[..|data| - 1]) + [last / 16, last % 16]
  }

  function Pack(nibbles: seq<Nibble>): (data: Bytes)
    ensures |data| == |nibbles| / 2
  {
    if |nibbles| < 2 then [] else [(nibbles[0] as int) * 16 + nibbles[1]] + Pack(nibbles[2..])
  }

  lemma {:induction false} UnpackAppend(a: Bytes, b: Bytes)
    ensures Unpack(a + b) == Unpack(a) + Unpack(b)
  {
    if b == [] {
      assert a + b == a;
    } else {
      assert (a + b)[..|a + b| - 1] == a + b[..|b| - 1];
      UnpackAppend(a, b[..|b| - 1]);
    }
  }

  lemma {:induction false} UnpackPack(nibbles: seq<Nibble>)
    requires |nibbles| % 2 == 0
    ensures Unpack(Pack(nibbles)) == nibbles
  {
    if nibbles != [] {
      UnpackPack(nibbles[2..]);
      var first: Byte := (nibbles[0] as int) * 16 + nibbles[1];
      assert [first][..0] == [] && Unpack([first]) == [] + [nibbles[0], nibbles[1]];
      UnpackAppend([first], Pack(nibbles[2..]));
      assert nibbles == [nibbles[0], nibbles[1]] + nibbles[2..];
    }
  }

  lemma {:induction false} PackUnpack(data: Bytes)
    ensures Pack(Unpack(data)) == data
  {
    if data != [] {
      assert data == [data[0]] + data[1..];
      UnpackAppend([data[0]], data[1..]);
      assert [data[0]][..0] == [] && Unpack([data[0]]) == [] + [data[0] / 16, data[0] % 16];
      assert Unpack(data)[2..] == Unpack(data[1..]);
      PackUnpack(data[1..]);
    }
  }

  // ---- The encoder ----

  const INVALID_PRECISION := Other("Invalid DECIMAL precision/scale")
  const INVALID_LITERAL := Other("Invalid DECIMAL parameter: expected decimal digits")
  const OUT_OF_RANGE := Other("DECIMAL parameter out of range")

  function SignNibble(negative: bool): Nibble {
    if negative then 0xD else 0xC
  }

  /** The canonical form of a number of `units`: all digits of `bytes` bytes and the sign. */
  function Canonical(negative: bool, units: nat, bytes: nat): (data: Bytes)
    requires bytes >= 1
    ensures |data| == bytes
  {
    Pack(Digits(units, 2 * bytes - 1) + [SignNibble(negative)])
  }

  predicate ValidPrecision(precision: nat, scale: nat) {
    1 <= precision <= 31 && scale <= precision
  }

  /** What encoding comes to, in terms of the number the literal denotes. */
  function Encoded(value: string, precision: nat, scale: nat): Result<Bytes, ProtoError> {
    var literal := ParseLiteral(value);
    if !ValidPrecision(precision, scale) then Err(INVALID_PRECISION)
    else if !literal.WellFormed() then Err(INVALID_LITERAL)
    else if Val(Nums(literal.integer)) >= Pow10(precision - scale) then Err(OUT_OF_RANGE)
    else Ok(Canonical(literal.negative, literal.Units(scale), (precision + 2) / 2))
  }

  lemma {:induction false} StripZerosVal(text: string)
    requires AllDigits(text)
    ensures AllDigits(StripZeros(text)) && Val(Nums(StripZeros(text))) == Val(Nums(text))
  {
    if text != "" && text[0] == '0' {
      StripZerosVal(text[1..]);
      assert Nums(text) == [0] + Nums(text[1..]);
      ValAppend([0], Nums(text[1..]));
      assert [0][..0] == [] && Val([0]) == 0;
    }
  }

  /** A number without leading zeros has more than k digits exactly if it is at least 10^k. */
  lemma StrippedLength(text: string, k: nat)
    requires AllDigits(text)
    ensures |StripZeros(text)| > k <==> Val(Nums(text)) >= Pow10(k)
  {
    StripZerosVal(text);
    StripZerosHead(text);
    var ds := Nums(StripZeros(text));
    ValBound(ds);
    if |ds| <= k {
      Pow10Monotone(|ds|, k);
    } else {
      assert ds == [ds[0]] + ds[1..];
      ValAppend([ds[0]], ds[1..]);
      assert [ds[0]][..0] == [] && Val([ds[0]]) == ds[0];
      Pow10Monotone(k, |ds| - 1);
      MulMonotone(1, ds[0], Pow10(|ds| - 1));
    }
  }

  lemma {:induction false} StripZerosHead(text: string)
    ensures StripZeros(text) != "" ==> StripZeros(text)[0] != '0'
  {
    if text != "" && text[0] == '0' {
      StripZerosHead(text[1..]);
    }
  }

  lemma {:induction false} ValZeros(n: nat)
    ensures AllDigits(Zeros(n)) && Val(Nums(Zeros(n))) == 0
  {
    if n > 0 {
      ValZeros(n - 1);
      assert Nums(Zeros(n))[..n - 1] == Nums(Zeros(n - 1));
    }
  }

  lemma CutQuotient(kept: nat, cut: nat, c: nat, s: nat)
    requires cut < c && s > 0
    ensures c * s > 0 && Div((kept * c + cut) * s, c * s) == kept
  {
    assert (kept * c + cut) * s == kept * (c * s) + cut * s;
    MulMonotone(cut + 1, c, s);
    Quotient((kept * c + cut) * s, c * s, kept, cut * s);
  }

  /** Cutting the fraction to `scale` places truncates. */
  lemma FractionCut(all: seq<nat>, places: nat, scale: nat)
    requires AreDigits(all) && scale <= places <= |all|
    ensures Val(all[..|all| - (places - scale)]) == Truncated(Val(all), places, scale)
  {
    hide Div, Pow10, Val;
    var at := |all| - (places - scale);
    var kept, cut := all[..at], all[at..];
    assert all == kept + cut;
    ValAppend(kept, cut);
    ValBound(cut);
    Pow10Add(|cut|, scale);
    CutQuotient(Val(kept), Val(cut), Pow10(|cut|), Pow10(scale));
  }

  /** Padding the fraction to `scale` places is exact. */
  lemma FractionPadded(n: nat, places: nat, scale: nat)
    requires places <= scale
    ensures n * Pow10(scale - places) == Truncated(n, places, scale)
  {
    Pow10Add(scale - places, places);
    CutQuotient(n * Pow10(scale - places), 0, 1, Pow10(places));
    assert n * Pow10(scale) == n * Pow10(scale - places) * Pow10(places);
  }

  /** The digits the encoder collects denote the literal's number of units. */
  lemma CollectedDigits(literal: Literal, scale: nat, digits: string)
    requires literal.WellFormed()
    requires var kept := if |literal.fraction| < scale then |literal.fraction| else scale;
             digits == StripZeros(literal.integer) + literal.fraction[..kept] + Zeros(scale - kept)
    ensures AllDigits(digits) && Val(Nums(digits)) == literal.Units(scale)
    ensures |digits| == |StripZeros(literal.integer)| + scale
  {
    hide Val, Pow10, StripZeros, Truncated;
    var i, f := Nums(literal.integer), Nums(literal.fraction);
    var kept := if |f| < scale then |f| else scale;
    var stripped, zeros := StripZeros(literal.integer), Zeros(scale - kept);
    StripZerosVal(literal.integer);
    ValZeros(scale - kept);
    assert AllDigits(digits);
    assert Nums(digits) == Nums(stripped) + f[..kept] + Nums(zeros);
    CollectedValue(Nums(stripped), i, f, kept, scale, Nums(zeros));
  }

  lemma CollectedValue(stripped: seq<nat>, i: seq<nat>, f: seq<nat>, kept: nat, scale: nat, zeros: seq<nat>)
    requires AreDigits(i) && AreDigits(f) && Val(stripped) == Val(i) && kept == if |f| < scale then |f| else scale
    requires |zeros| == scale - kept && Val(zeros) == 0
    ensures Val(stripped + f[..kept] + zeros) == Truncated(Val(i + f), |f|, scale)
  {
    hide Val, Pow10, Truncated;
    ValAppend(stripped + f[..kept], zeros);
    ValAppend(stripped, f[..kept]);
    ValAppend(i, f[..kept]);
    if |f| <= scale {
      assert f[..kept] == f;
      FractionPadded(Val(i + f), |f|, scale);
    } else {
      FractionCut(i + f, |f|, scale);
      assert (i + f)[..|i + f| - (|f| - scale)] == i + f[..kept];
      Pow10Zero();
    }
  }

  lemma Pow10Zero()
    ensures Pow10(0) == 1
  {}

  /** Padding with zero nibbles up to the byte length gives the canonical digits. */
  lemma PaddedDigits(digits: seq<nat>, n: nat)
    requires AreDigits(digits) && |digits| <= n
    ensures seq(n - |digits|, _ => 0) + digits == Digits(Val(digits), n)
  {}

  method EncodePackedDecimal(value: string, precision: Byte, scale: Byte) returns (result: Result<Bytes, ProtoError>)
    ensures result == Encoded(value, precision, scale)
  {
    hide Val, Pow10, StripZeros, Pack, ParseLiteral, Digits, Zeros, Truncated, SignNibble;
    if !(1 <= precision <= 31) || scale > precision {
      return Err(INVALID_PRECISION);
    }
    var literal := ParseLiteral(value);
    if |literal.integer| + |literal.fraction| == 0 || !AllDigits(literal.integer) || !AllDigits(literal.fraction) {
      return Err(INVALID_LITERAL);
    }
    var integer := StripZeros(literal.integer);
    StrippedLength(literal.integer, precision - scale);
    if |integer| > precision - scale {
      return Err(OUT_OF_RANGE);
    }
    var kept := if |literal.fraction| < scale then |literal.fraction| else scale as int;
    var digits := integer;
    digits := digits + literal.fraction[..kept];
    digits := digits + Zeros(scale - kept);
    CollectedDigits(literal, scale, digits);
    var byteLen: nat := (precision as int + 2) / 2;
    var padding: nat := byteLen * 2 - 1 - |digits|;
    PaddedDigits(Nums(digits), byteLen * 2 - 1);
    var nibbles: seq<Nibble> := seq(padding, _ => 0);
    nibbles := nibbles + Nums(digits);
    nibbles := nibbles + [SignNibble(literal.negative)];
    return Ok(Pack(nibbles));
  }

  // ---- The decoder ----

  function IntegerText(digits: string, scale: nat): string {
    var n := if |digits| > scale then |digits| - scale else 0;
    var trimmed := StripZeros(digits[..n]);
    if trimmed == "" then "0" else trimmed
  }

  function FractionText(digits: string, scale: nat): string {
    if scale == 0 then ""
    else if |digits| >= scale then "." + digits[|digits| - scale..]
    else "." + Zeros(scale - |digits|) + digits
  }

  /** What decoding yields for any bytes at all; the precision plays no part in it. */
  function Decoded(data: Bytes, scale: nat): Result<string, ProtoError> {
    if data == [] then Err(Other("empty packed decimal data"))
    else
      var nibbles := Unpack(data);
      var digits := Chars(nibbles[..|nibbles| - 1]);
      Ok((if nibbles[|nibbles| - 1] == 0xD then "-" else "")
         + IntegerText(digits, scale) + FractionText(digits, scale))
  }

  method DecodePackedDecimal(data: Bytes, precision: Byte, scale: Byte) returns (result: Result<string, ProtoError>)
    ensures result == Decoded(data, scale)
  {
    hide Unpack, Chars, IntegerText, FractionText, DigitChar;
    if data == [] {
      return Err(Other("empty packed decimal data"));
    }
    NothingUnpacked();
    var nibbles: seq<Nibble> := [];
    for i := 0 to |data|
      invariant nibbles == Unpack(data[..i])
    {
      assert data[..i + 1] == data[..i] + [data[i]];
      UnpackNext(data[..i], data[i]);
      nibbles := nibbles + [data[i] / 16];
      nibbles := nibbles + [data[i] % 16];
    }
    assert data[..|data|] == data;
    var sign := nibbles[|nibbles| - 1];
    nibbles := nibbles[..|nibbles| - 1];
    var digits := "";
    for i := 0 to |nibbles|
      invariant digits == Chars(nibbles[..i])
    {
      assert nibbles[..i + 1] == nibbles[..i] + [nibbles[i]];
      CharsNext(nibbles[..i], nibbles[i]);
      digits := digits + [DigitChar(nibbles[i])];
    }
    assert nibbles[..|nibbles|] == nibbles;
    var text := FormatDecimal(digits, sign == 0xD, scale);
    return Ok(text);
  }

  lemma NothingUnpacked()
    ensures Unpack([]) == [] && Chars([]) == ""
  {}

  lemma UnpackNext(data: Bytes, b: Byte)
    ensures Unpack(data + [b]) == Unpack(data) + [b / 16] + [b % 16]
  {
    assert (data + [b])[..|data|] == data;
  }

  lemma CharsNext(ns: seq<Nibble>, n: Nibble)
    ensures Chars(ns + [n]) == Chars(ns) + [DigitChar(n)]
  {}

  method FormatDecimal(digits: string, negative: bool, scale: Byte) returns (text: string)
    ensures text == (if negative then "-" else "") + IntegerText(digits, scale) + FractionText(digits, scale)
  {
    var integerDigits: nat := if |digits| > scale then |digits| - scale else 0;
    text := if negative then "-" else "";
    if integerDigits == 0 {
      assert digits[..0] == "";
      text := text + "0";
    } else {
      var trimmed := StripZeros(digits[..integerDigits]);
      text := text + if trimmed == "" then "0" else trimmed;
    }
    hide StripZeros, IntegerText;
    ghost var head := text;
    if scale > 0 {
      text := text + ".";
      if |digits| >= scale {
        assert head + ("." + digits[integerDigits..]) == text + digits[integerDigits..];
        text := text + digits[integerDigits..];
      } else {
        for i := 0 to scale - |digits|
          invariant text == head + "." + Zeros(i)
        {
          assert Zeros(i + 1) == Zeros(i) + "0";
          text := text + "0";
        }
        assert head + ("." + Zeros(scale - |digits|) + digits) == text + digits;
        text := text + digits;
      }
    } else {
      assert head + "" == head;
    }
  }
}
