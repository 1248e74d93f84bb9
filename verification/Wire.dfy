/** Bytes, big-endian numbers and the protocol error type shared by every layer. */
module Wire {
  type Byte = x: int | 0 <= x < 256
  type U16 = x: int | 0 <= x < 0x1_0000
  type Bytes = seq<Byte>

  datatype Option<+T> = None | Some(value: T)

  datatype Result<+T, +E> = Ok(value: T) | Err(error: E)

  datatype ProtoError =
    | InvalidMagic(magic: Byte)
    | BufferTooShort(expected: nat, actual: nat)
    | InvalidDssType(code: Byte)
    | Other(message: string)

  function U16ToBytes(n: U16): Bytes {
    [n / 256, n % 256]
  }

  function U16At(b: Bytes, i: nat): U16
    requires i + 1 < |b|
  {
    (b[i] as int) * 256 + b[i + 1] as int
  }

  /** The concatenation of a list of byte strings. */
  function Concat(parts: seq<Bytes>): Bytes {
    if parts == [] then [] else parts[0] + Concat(parts[1..])
  }

  /** Slices of a suffix are slices of the whole. */
  lemma SuffixSlice(b: Bytes, at: nat, lo: nat, hi: nat)
    requires lo <= hi && at + hi <= |b|
    ensures b[at..][lo..hi] == b[at + lo..at + hi] && b[at..][hi..] == b[at + hi..]
  {}

  /** Cutting a concatenation behind its first part cuts its second part. */
  lemma CutBehind(a: Bytes, b: Bytes, m: nat)
    requires |a| <= m <= |a| + |b|
    ensures (a + b)[..m][|a|..] == b[..m - |a|] && (a + b)[m..] == b[m - |a|..]
  {}

  /** The next piece of a byte string that arrives in pieces. */
  lemma PieceArrives(whole: Bytes, m: nat, pieces: seq<Bytes>)
    requires m <= |whole| && (pieces != [] || m < |whole|) && Concat(pieces) == whole[m..]
    ensures pieces != [] && m + |pieces[0]| <= |whole|
    ensures whole[..m] + pieces[0] == whole[..m + |pieces[0]|]
    ensures Concat(pieces[1..]) == whole[m + |pieces[0]|..]
  {}
}
