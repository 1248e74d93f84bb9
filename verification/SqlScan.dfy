/** The SQL scanners: keyword search and projection splitting (connection.rs). */
module SqlScan {
  import opened Wire

  const APOSTROPHE: Byte := 39
  const QUOTE: Byte := 34
  const OPEN: Byte := 40
  const CLOSE: Byte := 41
  const COMMA: Byte := 44
  const DASH: Byte := 45
  const SLASH: Byte := 47
  const STAR: Byte := 42
  const NEWLINE: Byte := 10

  datatype Mode = Normal | SingleQuote | DoubleQuote | LineComment | BlockComment

  // ---- The lexical state of every position ----

  /** What the text before a position makes of it: the mode it stands in, how many parentheses
      are open, and whether it is the second byte of a two-byte token. */
  datatype Lex = Lex(mode: Mode, depth: nat, second: bool)

  predicate Two(b: Bytes, i: nat, first: Byte, next: Byte) {
    i + 1 < |b| && b[i] == first && b[i + 1] == next
  }

  function Next(b: Bytes, i: nat, lex: Lex): Lex
    requires i < |b|
  {
    if lex.second then lex.(second := false)
    else
      match lex.mode
      case Normal =>
        if Two(b, i, DASH, DASH) then Lex(LineComment, lex.depth, true)
        else if Two(b, i, SLASH, STAR) then Lex(BlockComment, lex.depth, true)
        else if b[i] == APOSTROPHE then lex.(mode := SingleQuote)
        else if b[i] == QUOTE then lex.(mode := DoubleQuote)
        else if b[i] == OPEN then lex.(depth := lex.depth + 1)
        else if b[i] == CLOSE then lex.(depth := if lex.depth > 0 then lex.depth - 1 else 0)
        else lex
      case SingleQuote =>
        if b[i] != APOSTROPHE then lex
        else if Two(b, i, APOSTROPHE, APOSTROPHE) then lex.(second := true)
        else lex.(mode := Normal)
      case DoubleQuote =>
        if b[i] != QUOTE then lex
        else if Two(b, i, QUOTE, QUOTE) then lex.(second := true)
        else lex.(mode := Normal)
      case LineComment => if b[i] == NEWLINE then lex.(mode := Normal) else lex
      case BlockComment => if Two(b, i, STAR, SLASH) then Lex(Normal, lex.depth, true) else lex
  }

  /** The state of position i in a scan that starts at `start`. */
  function LexAt(b: Bytes, start: nat, i: nat): Lex
    requires start <= i <= |b|
    decreases i
  {
    if i == start then Lex(Normal, 0, false) else Next(b, i - 1, LexAt(b, start, i - 1))
  }

  /** Outside all literals and comments. */
  predicate IsCode(b: Bytes, start: nat, i: nat)
    requires start <= i <= |b|
  {
    LexAt(b, start, i).mode == Normal && !LexAt(b, start, i).second
  }

  predicate IsTopLevel(b: Bytes, start: nat, i: nat)
    requires start <= i <= |b|
  {
    IsCode(b, start, i) && LexAt(b, start, i).depth == 0
  }

  // ---- Keywords ----

  predicate IsIdentifierByte(x: Byte) {
    48 <= x <= 57 || 65 <= x <= 90 || 97 <= x <= 122 || x == 95 || x == 36 || x == 35 || x == 64
  }

  function Lower(x: Byte): Byte {
    if 65 <= x <= 90 then x + 32 else x
  }

  predicate KeywordAt(b: Bytes, keyword: Bytes, i: nat) {
    && i + |keyword| <= |b|
    && (i == 0 || !IsIdentifierByte(b[i - 1]))
    && (i + |keyword| == |b| || !IsIdentifierByte(b[i + |keyword|]))
    && forall k | 0 <= k < |keyword| :: Lower(b[i + k]) == Lower(keyword[k])
  }

  /** The scanners are only ever given words. */
  predicate IsWord(keyword: Bytes) {
    keyword != [] && forall k | 0 <= k < |keyword| :: IsIdentifierByte(keyword[k])
  }

  predicate IsHit(b: Bytes, keyword: Bytes, start: nat, i: nat)
    requires start <= i <= |b|
  {
    IsCode(b, start, i) && KeywordAt(b, keyword, i)
  }

  predicate IsTopLevelHit(b: Bytes, keyword: Bytes, start: nat, i: nat)
    requires start <= i <= |b|
  {
    IsTopLevel(b, start, i) && KeywordAt(b, keyword, i)
  }

  lemma KeywordBytes(b: Bytes, keyword: Bytes, i: nat, k: nat)
    requires IsWord(keyword) && KeywordAt(b, keyword, i) && k < |keyword|
    ensures IsIdentifierByte(b[i + k])
  {
    assert Lower(b[i + k]) == Lower(keyword[k]);
  }

  /** The bytes of a keyword leave the state as it is, and no other keyword starts among them. */
  lemma {:induction false} ThroughKeyword(b: Bytes, keyword: Bytes, start: nat, i: nat, k: nat)
    requires IsWord(keyword) && KeywordAt(b, keyword, i) && start <= i && k <= |keyword| && IsCode(b, start, i)
    ensures LexAt(b, start, i + k) == LexAt(b, start, i)
    ensures 0 < k < |keyword| ==> !KeywordAt(b, keyword, i + k)
  {
    if k > 0 {
      ThroughKeyword(b, keyword, start, i, k - 1);
      KeywordBytes(b, keyword, i, k - 1);
    }
  }

  /** The scanner's own moves: how far it goes from a position, and into which mode. */
  function Stride(b: Bytes, i: nat, lex: Lex): nat
    requires i < |b| && !lex.second
  {
    if Next(b, i, lex).second then 2 else 1
  }

  lemma StrideStays(b: Bytes, start: nat, i: nat)
    requires start <= i < |b| && !LexAt(b, start, i).second
    ensures var lex := LexAt(b, start, i);
            var n := Stride(b, i, lex);
            && i + n <= |b|
            && LexAt(b, start, i + n) == Next(b, i, lex).(second := false)
            && (n == 2 ==> LexAt(b, start, i + 1).second)
  {}

  /** One move inside a literal or comment; shared by the three scanners. */
  method SkipInside(b: Bytes, i: nat, mode: Mode) returns (next: nat, after: Mode)
    requires i < |b| && mode != Normal
    ensures forall depth: nat :: next == i + Stride(b, i, Lex(mode, depth, false))
                                 && after == Next(b, i, Lex(mode, depth, false)).mode
  {
    match mode
    case SingleQuote =>
      if b[i] == APOSTROPHE {
        if i + 1 < |b| && b[i + 1] == APOSTROPHE {
          return i + 2, mode;
        }
        return i + 1, Normal;
      }
      return i + 1, mode;
    case DoubleQuote =>
      if b[i] == QUOTE {
        if i + 1 < |b| && b[i + 1] == QUOTE {
          return i + 2, mode;
        }
        return i + 1, Normal;
      }
      return i + 1, mode;
    case LineComment =>
      return i + 1, if b[i] == NEWLINE then Normal else mode;
    case BlockComment =>
      if Two(b, i, STAR, SLASH) {
        return i + 2, Normal;
      }
      return i + 1, mode;
  }

  /** The first hit anywhere outside literals and comments. */
  method FindKeywordOutsideLiterals(b: Bytes, keyword: Bytes) returns (found: Option<nat>)
    requires IsWord(keyword)
    ensures found.Some? ==> found.value < |b| && IsHit(b, keyword, 0, found.value)
    ensures forall i | 0 <= i < (if found.Some? then found.value else |b|) :: !IsHit(b, keyword, 0, i)
  {
    hide LexAt, KeywordAt;
    var i, mode := 0, Normal;
    LexStart(b, 0);
    while i < |b|
      invariant i <= |b| && !LexAt(b, 0, i).second && LexAt(b, 0, i).mode == mode
      invariant forall j | 0 <= j < i :: !IsHit(b, keyword, 0, j)
    {
      ghost var lex := LexAt(b, 0, i);
      StrideStays(b, 0, i);
      NotDelimiter(b, keyword, i);
      if mode != Normal {
        i, mode := SkipInside(b, i, mode);
      } else if Two(b, i, DASH, DASH) {
        i, mode := i + 2, LineComment;
      } else if Two(b, i, SLASH, STAR) {
        i, mode := i + 2, BlockComment;
      } else if b[i] == APOSTROPHE {
        i, mode := i + 1, SingleQuote;
      } else if b[i] == QUOTE {
        i, mode := i + 1, DoubleQuote;
      } else {
        if KeywordAt(b, keyword, i) {
          return Some(i);
        }
        i := i + 1;
      }
    }
    return None;
  }

  lemma LexStart(b: Bytes, start: nat)
    requires start <= |b|
    ensures LexAt(b, start, start) == Lex(Normal, 0, false)
  {}

  lemma NotDelimiter(b: Bytes, keyword: Bytes, i: nat)
    requires IsWord(keyword) && i < |b|
    ensures KeywordAt(b, keyword, i) ==> IsIdentifierByte(b[i])
  {
    if KeywordAt(b, keyword, i) {
      KeywordBytes(b, keyword, i, 0);
    }
  }

  /** The first or the last hit at the top level, scanning from `start`. */
  method FindTopLevelKeyword(b: Bytes, keyword: Bytes, start: nat, last: bool) returns (found: Option<nat>)
    requires IsWord(keyword)
    ensures found.Some? ==> start <= found.value < |b| && IsTopLevelHit(b, keyword, start, found.value)
    ensures !last ==> forall i | start <= i < (if found.Some? then found.value else |b|) ::
                        !IsTopLevelHit(b, keyword, start, i)
    ensures last ==> forall i | (if found.Some? then found.value + 1 else start) <= i < |b| ::
                       !IsTopLevelHit(b, keyword, start, i)
  {
    hide LexAt, KeywordAt;
    var i := if start < |b| then start else |b|;
    found := None;
    if start > |b| {
      return;
    }
    var depth: nat, mode := 0, Normal;
    LexStart(b, start);
    while i < |b|
      invariant start <= i <= |b| && LexAt(b, start, i) == Lex(mode, depth, false)
      invariant found.Some? ==> last && start <= found.value < i && IsTopLevelHit(b, keyword, start, found.value)
      invariant forall j | (if found.Some? then found.value + 1 else start) <= j < i ::
                  !IsTopLevelHit(b, keyword, start, j)
    {
      StrideStays(b, start, i);
      NotDelimiter(b, keyword, i);
      if mode != Normal {
        i, mode := SkipInside(b, i, mode);
      } else if Two(b, i, DASH, DASH) {
        i, mode := i + 2, LineComment;
      } else if Two(b, i, SLASH, STAR) {
        i, mode := i + 2, BlockComment;
      } else if b[i] == APOSTROPHE {
        i, mode := i + 1, SingleQuote;
      } else if b[i] == QUOTE {
        i, mode := i + 1, DoubleQuote;
      } else if b[i] == OPEN {
        i, depth := i + 1, depth + 1;
      } else if b[i] == CLOSE {
        i, depth := i + 1, if depth > 0 then depth - 1 else 0;
      } else if depth == 0 && KeywordAt(b, keyword, i) {
        found := Some(i);
        if !last {
          return;
        }
        PastKeyword(b, keyword, start, i);
        i := i + |keyword|;
      } else {
        i := i + 1;
      }
    }
  }

  lemma PastKeyword(b: Bytes, keyword: Bytes, start: nat, i: nat)
    requires IsWord(keyword) && KeywordAt(b, keyword, i) && start <= i && IsCode(b, start, i)
    ensures i + |keyword| <= |b| && LexAt(b, start, i + |keyword|) == LexAt(b, start, i)
    ensures forall j | i < j < i + |keyword| :: !KeywordAt(b, keyword, j)
  {
    ThroughKeyword(b, keyword, start, i, |keyword|);
    forall j | i < j < i + |keyword|
      ensures !KeywordAt(b, keyword, j)
    {
      ThroughKeyword(b, keyword, start, i, j - i);
    }
  }
}
