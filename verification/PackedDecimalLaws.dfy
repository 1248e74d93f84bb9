/** What packed decimal encoding and decoding do to numbers (types.rs). */
module PackedDecimalLaws {
  import opened Arithmetic
  import opened Wire
  import opened PackedDecimal

  /** The text of a number of 10^-scale units: sign, numeral, and exactly `scale` places. */
  function Rendered(negative: bool, units: nat, scale: nat): string {
    (if negative then "-" else "") + Chars(Numeral(Shifted(units, scale)))
    + if scale == 0 then "" else "." + Chars(Digits(units, scale))
  }

  // ---- Stripping zeros and numerals ----

  lemma {:induction false} StripZerosSnoc(text: string, c: char)
    ensures StripZeros(text + [c]) == if StripZeros(text) != "" then StripZeros(text) + [c]
                                      else if c == '0' then "" else [c]
  {
    if text == "" {
      assert text + [c] == [c];
    } else {
      assert (text + [c])[1..] == text[1..] + [c];
      StripZerosSnoc(text[1..], c);
    }
  }

  /** Digits without their leading zeros are the numeral of their value. */
  lemma {:induction false} StrippedNumeral(ds: seq<nat>)
    requires AreDigits(ds)
    ensures StripZeros(Chars(ds)) == if Val(ds) == 0 then "" else Chars(Numeral(Val(ds)))
  {
    if ds != [] {
      var init, last := ds[..|ds| - 1], ds[|ds| - 1];
      StrippedNumeral(init);
      StripZerosSnoc(Chars(init), DigitChar(last));
      assert Chars(ds) == Chars(init) + [DigitChar(last)];
      assert DigitChar(last) == '0' <==> last == 0;
      hide StripZeros;
      assert Val(init) != 0 ==> Val(ds) / 10 == Val(init);
      NumeralChars(Val(init), last);
    }
  }

  lemma NumeralChars(n: nat, last: nat)
    requires last < 10
    ensures n > 0 ==> Chars(Numeral(n * 10 + last)) == Chars(Numeral(n)) + [DigitChar(last)]
    ensures Chars(Numeral(last)) == [DigitChar(last)]
  {}

  lemma ShiftedBound(n: nat, a: nat, b: nat)
    requires n < Pow10(a + b)
    ensures Shifted(n, b) < Pow10(a)
  {
    hide Pow10;
    Pow10Add(a, b);
    var q := Div(n, Pow10(b));
    assert n == q * Pow10(b) + n % Pow10(b);
    if q >= Pow10(a) {
      MulMonotone(Pow10(a), q, Pow10(b));
    }
  }

  // ---- Decoding canonical bytes ----

  lemma {:induction false} DecodeCanonical(negative: bool, units: nat, bytes: nat, scale: nat)
    requires bytes >= 1 && units < Pow10(2 * bytes - 1)
    ensures Decoded(Canonical(negative, units, bytes), scale) == Ok(Rendered(negative, units, scale))
  {
    hide Unpack, IntegerText, FractionText, Digits, Numeral, Canonical, Shifted, Pow10, Chars, Rendered;
    CanonicalNibbles(negative, units, bytes);
    DigitsRendered(negative, units, 2 * bytes - 1, scale);
  }

  /** The decoder's text for the n digits of a number, with any number of places. */
  lemma DigitsRendered(negative: bool, units: nat, n: nat, scale: nat)
    requires units < Pow10(n)
    ensures var digits := Chars(Digits(units, n));
            (if negative then "-" else "") + IntegerText(digits, scale) + FractionText(digits, scale)
            == Rendered(negative, units, scale)
  {
    hide IntegerText, FractionText, Digits, Numeral, Shifted, Pow10;
    if scale <= n {
      DigitsSplit(units, n - scale, scale);
      ShiftedBound(units, n - scale, scale);
      DecodeParts(Shifted(units, scale), n - scale, Digits(units, scale));
    } else {
      DigitsSplit(units, scale - n, n);
      ShiftedBound(units, 0, n);
      Pow10Monotone(n, scale);
      ShiftedBound(units, 0, scale);
      Pow10Zero();
      ZeroDigits(scale - n, Digits(units, n));
      NumeralZero();
      PlacesOnly(Chars(Digits(units, n)), scale);
    }
  }

  lemma {:induction false} ZeroDigits(k: nat, ds: seq<nat>)
    requires AreDigits(ds)
    ensures Chars(Digits(0, k) + ds) == Zeros(k) + Chars(ds)
  {
    if k == 0 {
      assert [] + ds == ds;
    } else {
      ZeroDigits(k - 1, [0] + ds);
      assert Digits(0, k) + ds == Digits(0, k - 1) + ([0] + ds);
      assert Zeros(k) + Chars(ds) == Zeros(k - 1) + Chars([0] + ds);
    }
  }

  lemma PlacesOnly(digits: string, scale: nat)
    requires |digits| < scale
    ensures IntegerText(digits, scale) == "0" && FractionText(digits, scale) == "." + Zeros(scale - |digits|) + digits
  {
    assert digits[..0] == "";
  }

  lemma CanonicalNibbles(negative: bool, units: nat, bytes: nat)
    requires bytes >= 1
    ensures var nibbles := Unpack(Canonical(negative, units, bytes));
            && nibbles[..2 * bytes - 1] == Digits(units, 2 * bytes - 1)
            && nibbles[2 * bytes - 1] == SignNibble(negative)
  {
    hide Digits, Pack, Unpack;
    UnpackPack(Digits(units, 2 * bytes - 1) + [SignNibble(negative)]);
  }

  lemma DecodeParts(whole: nat, places: nat, back: seq<nat>)
    requires whole < Pow10(places) && AreDigits(back)
    ensures var digits := Chars(Digits(whole, places) + back);
            && IntegerText(digits, |back|) == Chars(Numeral(whole))
            && FractionText(digits, |back|) == if |back| == 0 then "" else "." + Chars(back)
  {
    hide Digits, StripZeros, Numeral, Val, Pow10;
    var front := Digits(whole, places);
    var digits := Chars(front + back);
    assert digits[..places] == Chars(front) && digits[places..] == Chars(back);
    ValOfDigits(whole, places);
    StrippedNumeral(front);
    NumeralZero();
  }

  lemma NumeralZero()
    ensures Chars(Numeral(0)) == "0"
    ensures forall n :: Chars(Numeral(n)) != ""
  {}

  /** The value theorem: encoding succeeds exactly for a valid precision and scale, a literal
      of digits, and an integer part below 10^(precision - scale); decoding then gives the sign
      and the value truncated toward zero to exactly `scale` places. */
  lemma {:induction false} EncodeThenDecode(value: string, precision: nat, scale: nat)
    ensures var literal := ParseLiteral(value);
            && (Encoded(value, precision, scale).Ok? <==>
                  ValidPrecision(precision, scale) && literal.WellFormed()
                  && Val(Nums(literal.integer)) < Pow10(precision - scale))
            && (Encoded(value, precision, scale).Ok? ==>
                  Decoded(Encoded(value, precision, scale).value, scale)
                  == Ok(Rendered(literal.negative, literal.Units(scale), scale)))
  {
    if Encoded(value, precision, scale).Ok? {
      var literal := ParseLiteral(value);
      var bytes := (precision + 2) / 2;
      UnitsBound(literal, precision, scale);
      Pow10Monotone(precision, 2 * bytes - 1);
      DecodeCanonical(literal.negative, literal.Units(scale), bytes, scale);
    }
  }

  lemma UnitsBound(literal: Literal, precision: nat, scale: nat)
    requires literal.WellFormed() && scale <= precision && Val(Nums(literal.integer)) < Pow10(precision - scale)
    ensures literal.Units(scale) < Pow10(precision)
  {
    var kept := if |literal.fraction| < scale then |literal.fraction| else scale;
    var digits := StripZeros(literal.integer) + literal.fraction[..kept] + Zeros(scale - kept);
    CollectedDigits(literal, scale, digits);
    StrippedLength(literal.integer, precision - scale);
    ValBound(Nums(digits));
    Pow10Monotone(|digits|, precision);
  }

  // ---- Decoding any bytes ----

  /** The number in the digit pairs of whole bytes. */
  function Pairs(data: Bytes): nat {
    if data == [] then 0
    else Pairs(data[..|data| - 1]) * 100 + data[|data| - 1] / 16 * 10 + data[|data| - 1] % 16
  }

  predicate DigitPairs(data: Bytes) {
    forall i | 0 <= i < |data| :: data[i] / 16 < 10 && data[i] % 16 < 10
  }

  lemma {:induction false} PairNibbles(data: Bytes)
    requires DigitPairs(data)
    ensures AreDigits(Unpack(data)) && Val(Unpack(data)) == Pairs(data)
  {
    if data != [] {
      var init, last := data[..|data| - 1], data[|data| - 1];
      PairNibbles(init);
      var before := Unpack(init) + [last / 16];
      assert Unpack(data) == before + [last % 16];
      assert (before + [last % 16])[..|before|] == before && before[..|before| - 1] == Unpack(init);
    }
  }

  /** Bytes whose nibbles but the last are digits decode to the number they spell, negative only if the last is D. */
  lemma {:induction false} DecodeDigits(front: Bytes, last: Byte, scale: nat)
    requires DigitPairs(front) && last / 16 < 10
    ensures Decoded(front + [last], scale) == Ok(Rendered(last % 16 == 0xD, Pairs(front) * 10 + last / 16, scale))
  {
    hide Unpack, IntegerText, FractionText, Digits, Numeral, Shifted, Pow10, Chars, Rendered, Val;
    var nibbles := Unpack(front + [last]);
    UnpackNext(front, last);
    PairNibbles(front);
    var ds := Unpack(front) + [last / 16];
    assert nibbles[..|nibbles| - 1] == ds;
    AppendDigit(Unpack(front), last / 16);
    ValBound(ds);
    DigitsOfVal(ds);
    DigitsRendered(last % 16 == 0xD, Val(ds), |ds|, scale);
  }

  lemma AppendDigit(ds: seq<nat>, d: nat)
    ensures Val(ds + [d]) == Val(ds) * 10 + d
  {
    assert (ds + [d])[..|ds|] == ds;
  }

  /** Whatever the bytes, the text is there and has a minus sign exactly if the last nibble is D. */
  lemma {:induction false} NegativeExact(data: Bytes, scale: nat)
    ensures data == [] <==> Decoded(data, scale).Err?
    ensures data != [] ==>
              var text := Decoded(data, scale).value;
              text != "" && (text[0] == '-' <==> data[|data| - 1] % 16 == 0xD)
  {
    if data != [] {
      LastNibble(data);
      var nibbles := Unpack(data);
      var digits := Chars(nibbles[..|nibbles| - 1]);
      NoMinus(digits, scale);
      hide IntegerText, FractionText, Unpack, Chars;
      var integer := IntegerText(digits, scale);
      var sign := if nibbles[|nibbles| - 1] == 0xD then "-" else "";
      assert (sign + integer + FractionText(digits, scale))[0] == (sign + integer)[0];
    }
  }

  lemma LastNibble(data: Bytes)
    requires data != []
    ensures Unpack(data)[2 * |data| - 1] == data[|data| - 1] % 16
  {}

  lemma NoMinus(digits: string, scale: nat)
    requires forall i | 0 <= i < |digits| :: digits[i] >= '0'
    ensures IntegerText(digits, scale) != "" && IntegerText(digits, scale)[0] != '-'
  {
    StripZerosPart(digits[..if |digits| > scale then |digits| - scale else 0]);
  }

  lemma {:induction false} StripZerosPart(text: string)
    requires forall i | 0 <= i < |text| :: text[i] >= '0'
    ensures StripZeros(text) != "" ==> StripZeros(text)[0] >= '0'
  {
    if text != "" && text[0] == '0' {
      StripZerosPart(text[1..]);
    }
  }

  /** Every nibble of the bytes but the last one, as the character with code 48 more. */
  function NibbleText(data: Bytes): string
    requires data != []
  {
    seq(2 * |data| - 1, k requires 0 <= k < 2 * |data| - 1 =>
      (48 + if k % 2 == 0 then data[k / 2] / 16 else data[k / 2] % 16) as char)
  }

  /** So they are written out, digits or not. */
  lemma {:induction false} AnyNibbles(data: Bytes)
    requires data != [] && data[0] / 16 != 0
    ensures Decoded(data, 0) == Ok((if data[|data| - 1] % 16 == 0xD then "-" else "") + NibbleText(data))
  {
    hide Unpack;
    LastNibble(data);
    NibblesOf(data);
    var nibbles := Unpack(data);
    var digits := Chars(nibbles[..|nibbles| - 1]);
    assert digits == NibbleText(data) by {
      forall k | 0 <= k < |digits| ensures digits[k] == NibbleText(data)[k] {
        assert k == 2 * (k / 2) || k == 2 * (k / 2) + 1;
      }
    }
    assert digits[..|digits|] == digits && digits[0] != '0';
    hide NibbleText, Chars;
    assert IntegerText(digits, 0) == digits && FractionText(digits, 0) == "";
    var sign := if data[|data| - 1] % 16 == 0xD then "-" else "";
    assert sign + digits + "" == sign + digits;
  }

  lemma {:induction false} NibblesOf(data: Bytes)
    ensures forall k | 0 <= k < |data| :: Unpack(data)[2 * k] == data[k] / 16 && Unpack(data)[2 * k + 1] == data[k] % 16
  {
    if data != [] {
      NibblesOf(data[..|data| - 1]);
    }
  }

  /** Unsigned digits are a positive number. */
  lemma {:induction false} UnsignedIsPositive()
    ensures Decoded([0x12, 0x3F], 0) == Ok("123")
    ensures Decoded([0x12, 0x3D], 1) == Ok("-12.3")
  {
    hide Decoded, Rendered;
    DecodeDigits([0x12], 0x3F, 0);
    DecodeDigits([0x12], 0x3D, 1);
    assert [0x12 as Byte][..0] == [] && Pairs([0x12]) == 12;
    assert [0x12] + [0x3F] == [0x12, 0x3F] && [0x12] + [0x3D] == [0x12, 0x3D];
    RenderedExample();
  }

  lemma RenderedExample()
    ensures Rendered(false, 123, 0) == "123" && Rendered(true, 123, 1) == "-12.3"
  {
    hide Numeral, Shifted, Chars, DigitChar;
    ShiftedNext(123, 0);
    ShiftedNext(12, 0);
    NumeralChars(0, 1);
    NumeralChars(1, 2);
    NumeralChars(12, 3);
    assert Digits(123, 1) == Digits(12, 0) + [3] == [3];
    OneChar(1);
    OneChar(2);
    OneChar(3);
  }

  lemma OneChar(d: nat)
    requires d < 10
    ensures Chars([d]) == [DigitChar(d)] == ["0123456789"[d]]
  {}

  // ---- Reading rendered text back ----

  predicate Plain(text: string) {
    forall i | 0 <= i < |text| :: IsDigit(text[i]) || text[i] in "-."
  }

  lemma TrimPlain(text: string)
    requires Plain(text)
    ensures Trim(text) == text
  {}

  lemma {:induction false} SplitDigits(integer: string, rest: string)
    requires AllDigits(integer)
    ensures SplitAtDot(integer + "." + rest) == (integer, rest)
    ensures SplitAtDot(integer) == (integer, "")
  {
    if integer == "" {
      assert integer + "." + rest == "." + rest;
    } else {
      assert (integer + "." + rest)[1..] == integer[1..] + "." + rest;
      assert integer == [integer[0]] + integer[1..];
      SplitDigits(integer[1..], rest);
    }
  }

  lemma CharsAreDigits(ds: seq<nat>)
    requires AreDigits(ds)
    ensures AllDigits(Chars(ds)) && Nums(Chars(ds)) == ds
  {}

  /** A rendered number parses to its own sign, numeral and places. */
  lemma ParseRendered(negative: bool, units: nat, scale: nat)
    ensures ParseLiteral(Rendered(negative, units, scale))
         == Literal(negative, Chars(Numeral(Shifted(units, scale))), Chars(Digits(units, scale)))
  {
    hide Shifted, Digits, Numeral, Chars, ParseLiteral;
    CharsAreDigits(Numeral(Shifted(units, scale)));
    CharsAreDigits(Digits(units, scale));
    ParseParts(negative, Chars(Numeral(Shifted(units, scale))), Chars(Digits(units, scale)));
  }

  lemma ParseParts(negative: bool, integer: string, fraction: string)
    requires AllDigits(integer) && AllDigits(fraction) && integer != ""
    ensures ParseLiteral((if negative then "-" else "") + integer + if fraction == "" then "" else "." + fraction)
         == Literal(negative, integer, fraction)
  {
    var unsigned := integer + if fraction == "" then "" else "." + fraction;
    var text := (if negative then "-" else "") + integer + if fraction == "" then "" else "." + fraction;
    assert text == (if negative then "-" else "") + unsigned;
    TrimPlain(text);
    SplitDigits(integer, fraction);
    assert fraction != "" ==> unsigned == integer + "." + fraction;
    assert fraction == "" ==> unsigned == integer;
    hide Trim, SplitAtDot;
    assert negative ==> text[1..] == unsigned;
    assert !negative ==> text == unsigned && IsDigit(text[0]);
  }

  lemma {:induction false} ValOfNumeral(n: nat)
    ensures Val(Numeral(n)) == n
  {
    if n < 10 {
      assert [n][..0] == [];
    } else {
      ValOfNumeral(n / 10);
      assert (Numeral(n / 10) + [n % 10])[..|Numeral(n / 10)|] == Numeral(n / 10);
    }
  }

  /** Rendering loses nothing: the text stands for the number it was made from. */
  lemma RenderedUnits(negative: bool, units: nat, scale: nat)
    ensures var literal := ParseLiteral(Rendered(negative, units, scale));
            && literal.WellFormed() && literal.negative == negative
            && literal.Units(scale) == units
            && Val(Nums(literal.integer)) == Shifted(units, scale)
  {
    hide Digits, Numeral, Shifted, Truncated, Chars, Rendered, ParseLiteral, Val;
    var whole, places := Numeral(Shifted(units, scale)), Digits(units, scale);
    ParseRendered(negative, units, scale);
    CharsAreDigits(whole);
    CharsAreDigits(places);
    ValOfNumeral(Shifted(units, scale));
    WholeAndPlaces(whole, units, scale);
  }

  lemma WholeAndPlaces(whole: seq<nat>, units: nat, scale: nat)
    requires Val(whole) == Shifted(units, scale)
    ensures Truncated(Val(whole + Digits(units, scale)), scale, scale) == units
  {
    WholePlacesVal(whole, units, scale);
    Quotient(units * Pow10(scale), Pow10(scale), units, 0);
  }

  lemma {:induction false} WholePlacesVal(whole: seq<nat>, units: nat, scale: nat)
    requires Val(whole) == Shifted(units, scale)
    ensures Val(whole + Digits(units, scale)) == units
    decreases scale
  {
    hide Shifted;
    ShiftedNext(units, 0);
    if scale == 0 {
      assert whole + [] == whole;
    } else {
      ShiftedNext(units, scale - 1);
      WholePlacesVal(whole, units / 10, scale - 1);
      var before := whole + Digits(units / 10, scale - 1);
      assert whole + Digits(units, scale) == before + [units % 10];
      assert (before + [units % 10])[..|before|] == before;
    }
  }

  /** Encoding a rendered number succeeds exactly if it has at most `precision` digits, and
      gives its canonical bytes. */
  lemma {:induction false} EncodeRendered(negative: bool, units: nat, precision: nat, scale: nat)
    requires ValidPrecision(precision, scale)
    ensures Encoded(Rendered(negative, units, scale), precision, scale)
         == if units < Pow10(precision) then Ok(Canonical(negative, units, (precision + 2) / 2)) else Err(OUT_OF_RANGE)
  {
    hide ParseLiteral, Rendered, Canonical, Pow10, Shifted, Val, Truncated, Nums, Chars, AllDigits;
    RenderedUnits(negative, units, scale);
    if units < Pow10(precision) {
      ShiftedBound(units, precision - scale, scale);
    } else {
      ShiftedAtLeast(units, precision - scale, scale);
    }
  }

  lemma ShiftedAtLeast(n: nat, a: nat, b: nat)
    requires n >= Pow10(a + b)
    ensures Shifted(n, b) >= Pow10(a)
  {
    hide Pow10;
    Pow10Add(a, b);
    var q := Div(n, Pow10(b));
    assert n == q * Pow10(b) + n % Pow10(b);
    if q < Pow10(a) {
      MulMonotone(q + 1, Pow10(a), Pow10(b));
    }
  }

  // ---- Which texts are literals ----

  /** The 25 characters with the Unicode property White_Space. */
  predicate IsBlank(c: char) {
    c as int in [9, 10, 11, 12, 13, 32, 133, 160, 5760, 8192, 8193, 8194, 8195, 8196, 8197, 8198, 8199, 8200, 8201,
                 8202, 8232, 8233, 8239, 8287, 12288]
  }

  predicate AllBlank(text: string) {
    forall i | 0 <= i < |text| :: IsBlank(text[i])
  }

  predicate IsSign(sign: string) {
    sign == "" || (|sign| == 1 && (sign[0] == '+' || sign[0] == '-'))
  }

  /** A literal's digits behind its sign, with its dot or without. */
  function Body(sign: string, l: Literal, dotted: bool): string {
    sign + (l.integer + if dotted then "." + l.fraction else "")
  }

  predicate Fits(l: Literal, sign: string, dotted: bool) {
    IsSign(sign) && (l.negative <==> sign != "" && sign[0] == '-') && (l.fraction == "" || dotted)
  }

  /** Blanks, at most one sign, digits, at most one dot and digits behind it, blanks. */
  ghost predicate Spells(value: string, l: Literal) {
    exists lead, sign, dotted, trail ::
      AllBlank(lead) && AllBlank(trail) && Fits(l, sign, dotted) && value == lead + Body(sign, l, dotted) + trail
  }

  /** The encoder takes a text for a number exactly if it spells one. */
  lemma {:induction false} LiteralExact(value: string, l: Literal)
    requires l.WellFormed()
    ensures ParseLiteral(value) == l <==> Spells(value, l)
  {
    hide ParseLiteral, AllBlank, Body, Fits;
    if Spells(value, l) {
      var lead, sign, dotted, trail :|
        AllBlank(lead) && AllBlank(trail) && Fits(l, sign, dotted) && value == lead + Body(sign, l, dotted) + trail;
      SpelledParses(lead, sign, l, dotted, trail);
    } else if ParseLiteral(value) == l {
      ParsedSpells(value);
      assert false;
    }
  }

  lemma SpelledParses(lead: string, sign: string, l: Literal, dotted: bool, trail: string)
    requires l.WellFormed() && AllBlank(lead) && AllBlank(trail) && Fits(l, sign, dotted)
    ensures ParseLiteral(lead + Body(sign, l, dotted) + trail) == l
  {
    hide Trim, SplitAtDot, Body, IsBlank, AllBlank;
    var body := Body(sign, l, dotted);
    BodyEnds(sign, l, dotted);
    TrimAround(lead, body, trail);
    BodyParts(sign, l, dotted);
  }

  lemma BodyParts(sign: string, l: Literal, dotted: bool)
    requires l.WellFormed() && Fits(l, sign, dotted)
    ensures var body := Body(sign, l, dotted);
            && body[..|sign|] == sign && |body| > |sign|
            && body[|sign|] != '+' && body[|sign|] != '-'
            && SplitAtDot(body[|sign|..]) == (l.integer, l.fraction)
  {
    hide SplitAtDot;
    var unsigned := l.integer + if dotted then "." + l.fraction else "";
    assert Body(sign, l, dotted) == sign + unsigned;
    SplitDigits(l.integer, l.fraction);
    assert dotted ==> unsigned == l.integer + "." + l.fraction;
    assert !dotted ==> unsigned == l.integer;
    assert unsigned != "" && (IsDigit(unsigned[0]) || unsigned[0] == '.');
  }

  lemma BodyEnds(sign: string, l: Literal, dotted: bool)
    requires l.WellFormed() && Fits(l, sign, dotted)
    ensures var body := Body(sign, l, dotted);
            body != "" && !IsBlank(body[0]) && !IsBlank(body[|body| - 1])
  {
    hide IsBlank, IsDigit;
    var body := Body(sign, l, dotted);
    assert body != "";
    assert forall i | 0 <= i < |body| :: IsDigit(body[i]) || body[i] == '+' || body[i] == '-' || body[i] == '.';
    NotBlank(body[0]);
    NotBlank(body[|body| - 1]);
  }

  lemma NotBlank(c: char)
    requires IsDigit(c) || c == '+' || c == '-' || c == '.'
    ensures !IsBlank(c)
  {}

  /** Trimming takes off exactly the blanks around a text that neither begins nor ends with one. */
  lemma {:induction false} TrimAround(lead: string, body: string, trail: string)
    requires AllBlank(lead) && AllBlank(trail)
    requires body != "" && !IsBlank(body[0]) && !IsBlank(body[|body| - 1])
    ensures Trim(lead + body + trail) == body
  {
    hide IsBlank, TrimStart, TrimEnd;
    StartTrimmed(lead, body + trail);
    assert lead + body + trail == lead + (body + trail);
    EndTrimmed(body, trail);
  }

  lemma BlankAgrees(c: char)
    ensures IsBlank(c) == IsWhiteSpace(c)
  {}

  lemma {:induction false} StartTrimmed(lead: string, rest: string)
    requires AllBlank(lead) && rest != "" && !IsBlank(rest[0])
    ensures TrimStart(lead + rest) == rest
  {
    hide IsBlank, IsWhiteSpace;
    BlankAgrees((lead + rest)[0]);
    if lead == "" {
      assert lead + rest == rest;
    } else {
      assert (lead + rest)[1..] == lead[1..] + rest;
      StartTrimmed(lead[1..], rest);
    }
  }

  lemma {:induction false} EndTrimmed(rest: string, trail: string)
    requires AllBlank(trail) && rest != "" && !IsBlank(rest[|rest| - 1])
    ensures TrimEnd(rest + trail) == rest
  {
    hide IsBlank, IsWhiteSpace;
    BlankAgrees((rest + trail)[|rest + trail| - 1]);
    if trail == "" {
      assert rest + trail == rest;
    } else {
      assert (rest + trail)[..|rest + trail| - 1] == rest + trail[..|trail| - 1];
      EndTrimmed(rest, trail[..|trail| - 1]);
    }
  }

  lemma ParsedSpells(value: string)
    requires ParseLiteral(value).WellFormed()
    ensures Spells(value, ParseLiteral(value))
  {
    hide Trim, SplitAtDot, AllBlank;
    var lead, trail := TrimSplits(value);
    var sign, dotted := TrimmedBody(value);
    assert value == lead + Body(sign, ParseLiteral(value), dotted) + trail;
  }

  lemma TrimmedBody(value: string) returns (sign: string, dotted: bool)
    ensures Fits(ParseLiteral(value), sign, dotted) && Trim(value) == Body(sign, ParseLiteral(value), dotted)
  {
    hide Trim, SplitAtDot, ParseLiteral, IsSign;
    var body, l := Trim(value), ParseLiteral(value);
    sign := SignOf(value);
    var unsigned := body[|sign|..];
    dotted := '.' in unsigned;
    SplitJoins(unsigned);
    assert unsigned == l.integer + if dotted then "." + l.fraction else "";
    assert body == body[..|sign|] + unsigned;
  }

  lemma SignOf(value: string) returns (sign: string)
    ensures var body, l := Trim(value), ParseLiteral(value);
            && IsSign(sign) && sign <= body
            && (l.negative <==> sign != "" && sign[0] == '-')
            && SplitAtDot(body[|sign|..]) == (l.integer, l.fraction)
  {
    hide Trim, SplitAtDot;
    var body := Trim(value);
    sign := if body != "" && (body[0] == '-' || body[0] == '+') then [body[0]] else "";
  }

  lemma {:induction false} SplitJoins(text: string)
    ensures var (before, after) := SplitAtDot(text);
            text == before + (if '.' in text then "." + after else "") && ('.' !in text ==> after == "")
  {
    if text != "" && text[0] != '.' {
      SplitJoins(text[1..]);
      assert text == [text[0]] + text[1..];
      assert '.' in text <==> '.' in text[1..];
    }
  }

  lemma TrimSplits(text: string) returns (lead: string, trail: string)
    ensures AllBlank(lead) && AllBlank(trail) && text == lead + Trim(text) + trail
  {
    hide TrimStart, TrimEnd;
    lead := TrimStartSplits(text);
    trail := TrimEndSplits(TrimStart(text));
  }

  lemma {:induction false} TrimStartSplits(text: string) returns (lead: string)
    ensures AllBlank(lead) && text == lead + TrimStart(text)
  {
    hide IsBlank, IsWhiteSpace;
    lead := "";
    if text != "" && IsWhiteSpace(text[0]) {
      BlankAgrees(text[0]);
      var more := TrimStartSplits(text[1..]);
      lead := [text[0]] + more;
    }
  }

  lemma {:induction false} TrimEndSplits(text: string) returns (trail: string)
    ensures AllBlank(trail) && text == TrimEnd(text) + trail
  {
    hide IsBlank, IsWhiteSpace;
    trail := "";
    if text != "" && IsWhiteSpace(text[|text| - 1]) {
      BlankAgrees(text[|text| - 1]);
      var more := TrimEndSplits(text[..|text| - 1]);
      trail := more + [text[|text| - 1]];
    }
  }

  /** The three refusals, in this order. */
  lemma {:induction false} Refusals(value: string, precision: nat, scale: nat)
    ensures precision == 0 || precision > 31 || scale > precision ==>
              Encoded(value, precision, scale) == Err(INVALID_PRECISION)
    ensures 1 <= precision <= 31 && scale <= precision && !(exists l: Literal :: l.WellFormed() && Spells(value, l)) ==>
              Encoded(value, precision, scale) == Err(INVALID_LITERAL)
    ensures forall l: Literal ::
              1 <= precision <= 31 && scale <= precision && l.WellFormed() && Spells(value, l)
              && Val(Nums(l.integer)) >= Pow10(precision - scale) ==>
                Encoded(value, precision, scale) == Err(OUT_OF_RANGE)
  {
    hide Spells, ParseLiteral;
    var parsed := ParseLiteral(value);
    if parsed.WellFormed() {
      LiteralExact(value, parsed);
    }
    forall l: Literal | l.WellFormed() && Spells(value, l) ensures ParseLiteral(value) == l {
      LiteralExact(value, l);
    }
  }

  // ---- Canonical bytes ----

  /** The form Db2 keeps: digit nibbles, a zero pad nibble for an even precision, sign C or D. */
  predicate IsCanonical(data: Bytes, precision: nat) {
    && |data| == precision / 2 + 1
    && var nibbles := Unpack(data);
       && (forall i | 0 <= i < |nibbles| - 1 :: nibbles[i] < 10)
       && (precision % 2 == 0 ==> nibbles[0] == 0)
       && nibbles[|nibbles| - 1] in {0xC, 0xD}
  }

  /** Encoding after decoding is the identity on canonical bytes. */
  lemma DecodeThenEncode(data: Bytes, precision: nat, scale: nat)
    requires ValidPrecision(precision, scale) && IsCanonical(data, precision)
    ensures Decoded(data, scale).Ok?
    ensures Encoded(Decoded(data, scale).value, precision, scale) == Ok(data)
  {
    hide Unpack, IsCanonical, Pow10, Canonical, Rendered, Encoded;
    var negative, units := CanonicalUnits(data, precision);
    Pow10Monotone(precision, 2 * |data| - 1);
    DecodeCanonical(negative, units, |data|, scale);
    EncodeRendered(negative, units, precision, scale);
  }

  /** Canonical bytes are the canonical form of some number that fits the precision. */
  lemma CanonicalUnits(data: Bytes, precision: nat) returns (negative: bool, units: nat)
    requires 1 <= precision && IsCanonical(data, precision)
    ensures |data| == (precision + 2) / 2 && units < Pow10(precision)
    ensures data == Canonical(negative, units, |data|)
  {
    hide Unpack, Pack, Digits, Val, Pow10;
    var nibbles := Unpack(data);
    var ds := nibbles[..|nibbles| - 1];
    negative := nibbles[|nibbles| - 1] == 0xD;
    units := Val(ds);
    DigitsOfVal(ds);
    assert nibbles == ds + [SignNibble(negative)];
    PackUnpack(data);
    ValBound(ds);
    if precision % 2 == 0 {
      assert ds == [0] + ds[1..];
      ValAppend([0], ds[1..]);
      ValOfNumeral(0);
      ValBound(ds[1..]);
    }
  }

  /** Two canonical values of the same type that decode alike are the same bytes. */
  lemma {:induction false} DecodeInjective(a: Bytes, b: Bytes, precision: nat, scale: nat)
    requires ValidPrecision(precision, scale) && IsCanonical(a, precision) && IsCanonical(b, precision)
    requires Decoded(a, scale) == Decoded(b, scale)
    ensures a == b
  {
    DecodeThenEncode(a, precision, scale);
    DecodeThenEncode(b, precision, scale);
  }
}
