/** The DDM byte layout in numerals, and where its two parsers stop (ddm.rs). */
module DdmWire {
  import opened Wire
  import opened Ddm
  import opened DdmRoundTrip

  /** The header of a printed object: an inline length of up to 32767, or the length of the header with the high bit
      set and the data's length in four, six or eight bytes. */
  lemma {:induction false} PrintedImage(codePoint: U16, data: Bytes)
    ensures var n, hi, lo := |data|, codePoint / 256, codePoint % 256;
            Marshal(codePoint, data)
            == (if n <= 0x7FFB then [(n + 4) / 256, (n + 4) % 256, hi, lo]
                else if n <= 0x7FFF_FFFB then [0x80, 0x08, hi, lo] + FourBytes(n)
                else if n <= 0x7FFF_FFFF_FFFB then
                  [0x80, 0x0A, hi, lo, n / 256 / 256 / 256 / 256 / 256 % 256, n / 256 / 256 / 256 / 256 % 256]
                  + FourBytes(n)
                else [0x80, 0x0C, hi, lo] + FourBytes(n / 256 / 256 / 256 / 256) + FourBytes(n)) + data
  {
    hide BigEndian, FourBytes;
    var n := |data|;
    BigEndianFour(n);
    var high := n / 256 / 256 / 256 / 256;
    if 0x7FFF_FFFB < n <= 0x7FFF_FFFF_FFFB {
      BigEndianAppend(n, 2);
      BigEndianTwo(high);
    } else if n > 0x7FFF_FFFF_FFFB {
      BigEndianAppend(n, 4);
      BigEndianFour(high);
    }
  }

  /** The low 32 bits of n, high byte first. */
  function FourBytes(n: nat): Bytes {
    [n / 256 / 256 / 256 % 256, n / 256 / 256 % 256, n / 256 % 256, n % 256]
  }

  lemma BigEndianFour(n: nat)
    ensures BigEndian(n, 4) == FourBytes(n)
  {
    BigEndianNext(n, 4);
    BigEndianNext(n / 256, 3);
    BigEndianNext(n / 256 / 256, 2);
    BigEndianNext(n / 256 / 256 / 256, 1);
    assert BigEndian(n / 256 / 256 / 256 / 256, 0) == [];
  }

  lemma BigEndianTwo(n: nat)
    ensures BigEndian(n, 2) == [n / 256 % 256, n % 256]
  {
    BigEndianNext(n, 2);
    BigEndianNext(n / 256, 1);
    assert BigEndian(n / 256 / 256, 0) == [];
  }

  lemma BigEndianAppend(n: nat, count: nat)
    ensures BigEndian(n, count + 4) == BigEndian(n / 256 / 256 / 256 / 256, count) + FourBytes(n)
  {
    hide BigEndian;
    BigEndianNext(n, count + 4);
    BigEndianNext(n / 256, count + 3);
    BigEndianNext(n / 256 / 256, count + 2);
    BigEndianNext(n / 256 / 256 / 256, count + 1);
  }

  lemma BigEndianNext(n: nat, count: nat)
    requires count > 0
    ensures BigEndian(n, count) == BigEndian(n / 256, count - 1) + [n % 256]
  {}

  /** What the front of given bytes is parsed to if its length is inline, or 0x8004 and so takes all there is. */
  lemma {:induction false} InlineParsed(bytes: Bytes)
    ensures |bytes| < 4 ==> ParseObject(bytes) == Err(BufferTooShort(4, |bytes|))
    ensures |bytes| >= 4 && bytes[0] == 0x80 && bytes[1] == 0x04 ==>
              ParseObject(bytes) == Ok(ParsedObject(
                DdmObject(bytes[2] as int * 256 + bytes[3], StripContinuationMarkers(bytes[4..])), |bytes|))
    ensures |bytes| >= 4 && bytes[0] < 0x80 ==>
              var n := bytes[0] as int * 256 + bytes[1];
              && (n < 4 ==> ParseObject(bytes).Err? && ParseObject(bytes).error.Other?)
              && (n > |bytes| ==> ParseObject(bytes) == Err(BufferTooShort(n, |bytes|)))
              && (4 <= n <= |bytes| ==>
                    ParseObject(bytes) == Ok(ParsedObject(DdmObject(bytes[2] as int * 256 + bytes[3], bytes[4..n]), n)))
  {
    hide StripContinuationMarkers, LengthValue;
  }

  /** Any other length above 0x8000 says how long the header is, and the bytes behind its first four say how long the
      data is, modulo 2^64. */
  lemma {:induction false} ExtendedParsed(bytes: Bytes)
    requires |bytes| >= 4 && bytes[0] >= 0x80 && !(bytes[0] == 0x80 && bytes[1] == 0x04)
    ensures var h := (bytes[0] as int - 0x80) * 256 + bytes[1];
            && (h < 4 ==> ParseObject(bytes).Err? && ParseObject(bytes).error.Other?)
            && (h > |bytes| ==> ParseObject(bytes) == Err(BufferTooShort(h, |bytes|)))
            && (4 <= h <= |bytes| ==>
                  var n := (h + Value(bytes[4..h])) % 0x1_0000_0000_0000_0000;
                  && (n < h ==> ParseObject(bytes).Err? && ParseObject(bytes).error.Other?)
                  && (n >= h && n > |bytes| ==> ParseObject(bytes) == Err(BufferTooShort(n, |bytes|)))
                  && (h <= n <= |bytes| ==>
                        ParseObject(bytes)
                        == Ok(ParsedObject(DdmObject(bytes[2] as int * 256 + bytes[3], bytes[h..n]), n))))
  {
    hide StripContinuationMarkers, LengthValue, Value;
    var h := (bytes[0] as int - 0x80) * 256 + bytes[1];
    if 4 <= h <= |bytes| {
      DeclaredLength(h, bytes[4..h]);
    }
  }

  lemma DeclaredLength(h: nat, field: Bytes)
    ensures (h + LengthValue(field)) % USIZE_RANGE == (h + Value(field)) % 0x1_0000_0000_0000_0000
  {
    hide LengthValue, Value;
    LengthValueWraps(field);
    WrapSum(h, Value(field));
  }

  /** The number that bytes stand for, high byte first. */
  function Value(bytes: Bytes): nat {
    if bytes == [] then 0 else Value(bytes[..|bytes| - 1]) * 256 + bytes[|bytes| - 1]
  }

  lemma {:induction false} LengthValueWraps(bytes: Bytes)
    ensures LengthValue(bytes) == Value(bytes) % 0x1_0000_0000_0000_0000
  {
    if bytes != [] {
      LengthValueWraps(bytes[..|bytes| - 1]);
      WrapDigit(Value(bytes[..|bytes| - 1]), bytes[|bytes| - 1]);
    }
  }

  lemma WrapDigit(v: nat, d: Byte)
    ensures (v % 0x1_0000_0000_0000_0000 * 256 + d) % 0x1_0000_0000_0000_0000
         == (v * 256 + d) % 0x1_0000_0000_0000_0000
  {
    var m := 0x1_0000_0000_0000_0000;
    var q := v / m;
    assert v * 256 + d == v % m * 256 + d + q * 256 * m;
    Multiple(v % m * 256 + d, q * 256);
  }

  lemma WrapSum(h: nat, v: nat)
    ensures (h + v % 0x1_0000_0000_0000_0000) % 0x1_0000_0000_0000_0000 == (h + v) % 0x1_0000_0000_0000_0000
  {
    var m := 0x1_0000_0000_0000_0000;
    assert h + v == h + v % m + v / m * m;
    Multiple(h + v % m, v / m);
  }

  lemma {:induction false} Multiple(x: nat, k: nat)
    ensures (x + k * 0x1_0000_0000_0000_0000) % 0x1_0000_0000_0000_0000 == x % 0x1_0000_0000_0000_0000
  {
    if k > 0 {
      Multiple(x, k - 1);
      assert x + k * 0x1_0000_0000_0000_0000
          == x + (k - 1) * 0x1_0000_0000_0000_0000 + 0x1_0000_0000_0000_0000;
    }
  }

  // ---- Markers ----

  /** Data of up to 32759 bytes, and data without 0x7FFE or 0x7FFF behind its first 32757, is left as it is. */
  lemma {:induction false} UnmarkedKept(data: Bytes)
    requires |data| <= 32759 || !(data[32757] == 0x7F && (data[32758] == 0xFE || data[32758] == 0xFF))
    ensures StripContinuationMarkers(data) == data
  {}

  /** Longer data with a marker there loses it, and goes on with the chunks behind. */
  lemma {:induction false} MarkedStripped(first: Bytes, b: Byte, more: Bytes)
    requires |first| == 32757 && (b == 0xFE || b == 0xFF) && more != []
    ensures StripContinuationMarkers(first + [0x7F, b] + more) == first + UnmarkedChunks([0x7F, b] + more)
  {
    hide UnmarkedChunks;
    var marked: Bytes := [0x7F, b] + more;
    var data := first + [0x7F, b] + more;
    assert data[32757..] == marked && data[..32757] == first;
    assert U16At(data, 32757) == U16At(marked, 0);
  }

  /** A chunk of up to 32764 bytes, and nothing behind a shorter one, is kept without the marker in front of it. */
  lemma {:induction false} ChunkUnmarked(b: Byte, chunk: Bytes, rest: Bytes)
    requires (b == 0xFE || b == 0xFF) && 0 < |chunk| <= 32764 && (rest != [] ==> |chunk| == 32764)
    ensures UnmarkedChunks([0x7F, b] + chunk + rest) == chunk + UnmarkedChunks(rest)
  {
    hide UnmarkedChunks;
    MarkedChunk([0x7F, b] + chunk + rest, 2, chunk, rest);
  }

  /** So is a chunk that has no marker. */
  lemma {:induction false} ChunkKept(chunk: Bytes, rest: Bytes)
    requires 0 < |chunk| <= 32764 && (rest != [] ==> |chunk| == 32764)
    requires |chunk| < 2 || chunk[0] != 0x7F || chunk[1] < 0xFE
    ensures UnmarkedChunks(chunk + rest) == chunk + UnmarkedChunks(rest)
  {
    hide UnmarkedChunks;
    MarkedChunk(chunk + rest, 0, chunk, rest);
  }

  lemma MarkedChunk(all: Bytes, skip: nat, chunk: Bytes, rest: Bytes)
    requires |all| == skip + |chunk| + |rest| && all[skip..] == chunk + rest
    requires skip == if IsContinuationMarker(all, 0) then 2 else 0
    requires chunk != [] && |chunk| <= 32764 && (rest != [] ==> |chunk| == 32764)
    ensures UnmarkedChunks(all) == chunk + UnmarkedChunks(rest)
  {
    var end := skip + |chunk|;
    assert all[skip..end] == (chunk + rest)[..|chunk|] == chunk;
    assert all[end..] == (chunk + rest)[|chunk|..] == rest;
  }

  // ---- The two parsers ----

  /** Reading a parameter and reading an object are the same, so parameters end where object parsing would fail. */
  lemma {:induction false} ParsersAgree(bytes: Bytes)
    ensures FirstParameter(bytes).None? <==> ParseObject(bytes).Err?
    ensures FirstParameter(bytes).Some? ==> ParseObject(bytes) == Ok(FirstParameter(bytes).value)
  {
    hide StripContinuationMarkers, LengthValue;
    if |bytes| >= 4 && U16At(bytes, 0) == OPEN_ENDED_LENGTH {
      assert bytes[4..|bytes|] == bytes[4..];
    }
  }

  /** Objects in front of bytes that do not parse: the parameters are these objects, the object list an error. */
  lemma {:induction false} MalformedTail(objects: seq<DdmObject>, bad: Bytes)
    requires FitVectors(objects) && |bad| >= 4 && ParseObject(bad).Err?
    ensures ParseObjects(MarshalAll(objects) + bad) == Err(ParseObject(bad).error)
    ensures Parameters(MarshalAll(objects) + bad) == objects
  {
    hide ParseObject, FirstParameter, ParseObjects, Parameters, Marshal;
    ParsersStart(MarshalAll(objects) + bad);
    if objects == [] {
      assert MarshalAll(objects) + bad == bad;
    } else {
      var o, rest := objects[0], MarshalAll(objects[1..]) + bad;
      MalformedTail(objects[1..], bad);
      ObjectRoundTrip(o.codePoint, o.data, rest);
      var printed := Marshal(o.codePoint, o.data);
      assert MarshalAll(objects) + bad == printed + rest;
      assert (printed + rest)[|printed|..] == rest;
    }
  }

  lemma ParsersStart(bytes: Bytes)
    requires |bytes| >= 4
    ensures ParseObject(bytes).Err? ==> ParseObjects(bytes) == Err(ParseObject(bytes).error) && Parameters(bytes) == []
    ensures ParseObject(bytes).Ok? ==>
              var p := ParseObject(bytes).value;
              && p.consumed <= |bytes|
              && Parameters(bytes) == [p.obj] + Parameters(bytes[p.consumed..])
              && (ParseObjects(bytes[p.consumed..]).Err? ==> ParseObjects(bytes) == ParseObjects(bytes[p.consumed..]))
  {
    hide ParseObject, FirstParameter;
    ParsersAgree(bytes);
    if ParseObject(bytes).Ok? {
      ParseObjectProgress(bytes);
    }
  }
}
