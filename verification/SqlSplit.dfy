/** Splitting a projection at its top-level commas, and what the scanners do not depend on
    (connection.rs). */
module SqlSplit {
  import opened Wire
  import opened SqlScan

  // ---- Blanks ----

  /** The length of the white-space character a UTF-8 text starts with; 0 if it starts with none. */
  function BlankAtFront(b: Bytes): (n: nat)
    ensures n <= |b|
  {
    if |b| >= 1 && (9 <= b[0] <= 13 || b[0] == 32) then 1
    else if |b| >= 2 && b[0] == 0xC2 && (b[1] == 0x85 || b[1] == 0xA0) then 2
    else if |b| >= 3 && IsWideBlank(b[0], b[1], b[2]) then 3
    else 0
  }

  predicate IsWideBlank(x: Byte, y: Byte, z: Byte) {
    || (x == 0xE1 && y == 0x9A && z == 0x80)
    || (x == 0xE2 && y == 0x80 && (0x80 <= z <= 0x8A || z == 0xA8 || z == 0xA9 || z == 0xAF))
    || (x == 0xE2 && y == 0x81 && z == 0x9F)
    || (x == 0xE3 && y == 0x80 && z == 0x80)
  }

  function BlankAtEnd(b: Bytes): (n: nat)
    ensures n <= |b|
  {
    var n := |b|;
    if n >= 1 && (9 <= b[n - 1] <= 13 || b[n - 1] == 32) then 1
    else if n >= 2 && b[n - 2] == 0xC2 && (b[n - 1] == 0x85 || b[n - 1] == 0xA0) then 2
    else if n >= 3 && IsWideBlank(b[n - 3], b[n - 2], b[n - 1]) then 3
    else 0
  }

  function TrimStart(b: Bytes): Bytes
    decreases |b|
  {
    if BlankAtFront(b) > 0 then TrimStart(b[BlankAtFront(b)..]) else b
  }

  function TrimEnd(b: Bytes): Bytes
    decreases |b|
  {
    if BlankAtEnd(b) > 0 then TrimEnd(b[..|b| - BlankAtEnd(b)]) else b
  }

  function Trim(b: Bytes): Bytes {
    TrimEnd(TrimStart(b))
  }

  // ---- Cuts ----

  predicate IsCut(b: Bytes, i: nat)
    requires i < |b|
  {
    IsTopLevel(b, 0, i) && b[i] == COMMA
  }

  /** The stretches between the top-level commas; the current one began at `from`. */
  function Segments(b: Bytes, from: nat, i: nat): seq<Bytes>
    requires from <= i <= |b|
    decreases |b| - i
  {
    if i == |b| then [b[from..]]
    else if IsCut(b, i) then [b[from..i]] + Segments(b, i + 1, i + 1)
    else Segments(b, from, i + 1)
  }

  /** The trimmed stretches that are not blank. */
  function Items(segments: seq<Bytes>): seq<Bytes> {
    if segments == [] then []
    else (if Trim(segments[0]) != [] then [Trim(segments[0])] else []) + Items(segments[1..])
  }

  ghost predicate Splits(items: seq<Bytes>, b: Bytes, from: nat, i: nat) {
    from <= i <= |b| && items + Items(Segments(b, from, i)) == Items(Segments(b, 0, 0))
  }

  lemma SplitsStart(b: Bytes)
    ensures Splits([], b, 0, 0)
  {}

  lemma SplitsAtCut(items: seq<Bytes>, b: Bytes, from: nat, i: nat)
    requires i < |b| && IsCut(b, i) && Splits(items, b, from, i)
    ensures Splits(items + (if Trim(b[from..i]) != [] then [Trim(b[from..i])] else []), b, i + 1, i + 1)
  {}

  lemma SplitsPast(items: seq<Bytes>, b: Bytes, from: nat, i: nat)
    requires i < |b| && !IsCut(b, i) && Splits(items, b, from, i)
    ensures Splits(items, b, from, i + 1)
  {}

  lemma SplitsEnd(items: seq<Bytes>, b: Bytes, from: nat)
    requires Splits(items, b, from, |b|)
    ensures Items(Segments(b, 0, 0)) == items + if Trim(b[from..]) != [] then [Trim(b[from..])] else []
  {
    hide Trim;
    var last := b[from..];
    var segments := Segments(b, from, |b|);
    assert segments == [last] && segments[1..] == [];
    var kept := if Trim(last) != [] then [Trim(last)] else [];
    assert Items([last]) == kept + Items([]) && kept + [] == kept;
  }

  /** `split_top_level_select_items`. */
  method SplitTopLevelSelectItems(b: Bytes) returns (items: seq<Bytes>)
    ensures items == Items(Segments(b, 0, 0))
  {
    hide LexAt, Items, Segments, Splits, Trim;
    items := [];
    var from, i := 0, 0;
    var depth: nat, mode := 0, Normal;
    LexStart(b, 0);
    SplitsStart(b);
    while i < |b|
      invariant i <= |b| && LexAt(b, 0, i) == Lex(mode, depth, false)
      invariant from <= i && Splits(items, b, from, i)
    {
      StrideStays(b, 0, i);
      if mode == Normal && b[i] == COMMA && depth == 0 {
        var item := Trim(b[from..i]);
        SplitsAtCut(items, b, from, i);
        if item != [] {
          items := items + [item];
        } else {
          assert items + [] == items;
        }
        from := i + 1;
        i := i + 1;
        continue;
      }
      SplitsPast(items, b, from, i);
      if Stride(b, i, Lex(mode, depth, false)) == 2 {
        SplitsPast(items, b, from, i + 1);
      }
      if mode != Normal {
        i, mode := SkipInside(b, i, mode);
      } else if Two(b, i, DASH, DASH) {
        i, mode := i + 2, LineComment;
      } else if Two(b, i, SLASH, STAR) {
        i, mode := i + 2, BlockComment;
      } else {
        if b[i] == APOSTROPHE {
          mode := SingleQuote;
        } else if b[i] == QUOTE {
          mode := DoubleQuote;
        } else if b[i] == OPEN {
          depth := depth + 1;
        } else if b[i] == CLOSE {
          depth := if depth > 0 then depth - 1 else 0;
        }
        i := i + 1;
      }
    }
    SplitsEnd(items, b, from);
    var last := Trim(b[from..]);
    if last != [] {
      items := items + [last];
    } else {
      assert items + [] == items;
    }
  }

  // ---- Joining ----

  function Join(parts: seq<Bytes>): Bytes {
    if parts == [] then [] else if |parts| == 1 then parts[0] else parts[0] + [COMMA] + Join(parts[1..])
  }

  /** Splitting loses nothing but the commas it splits at. */
  lemma {:induction false} SegmentsJoin(b: Bytes, from: nat, i: nat)
    requires from <= i <= |b|
    ensures Segments(b, from, i) != [] && Join(Segments(b, from, i)) == b[from..]
    decreases |b| - i
  {
    hide IsCut;
    if i < |b| {
      if IsCut(b, i) {
        SegmentsJoin(b, i + 1, i + 1);
        var rest := Segments(b, i + 1, i + 1);
        assert ([b[from..i]] + rest)[1..] == rest;
        assert b[i] == COMMA by {
          CutIsComma(b, i);
        }
        assert b[from..] == b[from..i] + [COMMA] + b[i + 1..];
      } else {
        SegmentsJoin(b, from, i + 1);
      }
    }
  }

  lemma CutIsComma(b: Bytes, i: nat)
    requires i < |b| && IsCut(b, i)
    ensures b[i] == COMMA
  {}

  /** An item that ends as it began, outside everything, with no comma of its own at the top. */
  predicate IsClosed(item: Bytes) {
    && LexAt(item, 0, |item|) == Lex(Normal, 0, false)
    && forall i | 0 <= i < |item| :: !IsCut(item, i)
  }

  /** What stands before a comma does not depend on the comma or what follows it. */
  lemma {:induction false} LexOfFront(item: Bytes, rest: Bytes, i: nat)
    requires i <= |item|
    ensures LexAt(item + [COMMA] + rest, 0, i) == LexAt(item, 0, i)
  {
    if i > 0 {
      var b := item + [COMMA] + rest;
      LexOfFront(item, rest, i - 1);
      assert b[i - 1] == item[i - 1] && b[i] == if i < |item| then item[i] else COMMA;
    }
  }

  /** After a closed item and its comma the scan starts afresh. */
  lemma {:induction false} LexOfBack(item: Bytes, rest: Bytes, i: nat)
    requires IsClosed(item) && i <= |rest|
    ensures LexAt(item + [COMMA] + rest, 0, |item| + 1 + i) == LexAt(rest, 0, i)
  {
    var b, at := item + [COMMA] + rest, |item| + 1;
    if i == 0 {
      LexOfFront(item, rest, |item|);
      assert b[|item|] == COMMA;
      assert LexAt(b, 0, at) == Next(b, |item|, LexAt(b, 0, |item|));
    } else {
      LexOfBack(item, rest, i - 1);
      assert b[at + i - 1] == rest[i - 1] && (i < |rest| ==> b[at + i] == rest[i]);
      assert LexAt(b, 0, at + i) == Next(b, at + i - 1, LexAt(b, 0, at + i - 1));
    }
  }

  lemma CutsOfJoined(item: Bytes, rest: Bytes)
    requires IsClosed(item)
    ensures var b := item + [COMMA] + rest;
            && (forall i | 0 <= i < |item| :: !IsCut(b, i))
            && IsCut(b, |item|)
            && forall i | 0 <= i < |rest| :: IsCut(b, |item| + 1 + i) == IsCut(rest, i)
  {
    hide LexAt;
    var b := item + [COMMA] + rest;
    forall i | 0 <= i <= |item|
      ensures LexAt(b, 0, i) == LexAt(item, 0, i)
    {
      LexOfFront(item, rest, i);
    }
    forall i | 0 <= i < |item|
      ensures !IsCut(b, i)
    {
      assert !IsCut(item, i);
    }
    forall i | 0 <= i < |rest|
      ensures IsCut(b, |item| + 1 + i) == IsCut(rest, i)
    {
      LexOfBack(item, rest, i);
    }
  }

  lemma {:induction false} NoCutsAhead(b: Bytes, from: nat, i: nat, to: nat)
    requires from <= i <= to <= |b| && (forall j | i <= j < to :: !IsCut(b, j))
    ensures Segments(b, from, i) == Segments(b, from, to)
    decreases |b| - i
  {
    if i < to {
      NoCutsAhead(b, from, i + 1, to);
    }
  }

  lemma {:induction false} SegmentsOfBack(front: Bytes, rest: Bytes, from: nat, i: nat)
    requires from <= i <= |rest|
    requires forall j | 0 <= j < |rest| :: IsCut(front + rest, |front| + j) == IsCut(rest, j)
    ensures Segments(front + rest, |front| + from, |front| + i) == Segments(rest, from, i)
    decreases |rest| - i
  {
    hide IsCut;
    var b := front + rest;
    assert b[|front| + from..] == rest[from..] && b[|front| + from..|front| + i] == rest[from..i];
    if i < |rest| {
      assert IsCut(b, |front| + i) == IsCut(rest, i);
      if IsCut(rest, i) {
        SegmentsOfBack(front, rest, i + 1, i + 1);
      } else {
        SegmentsOfBack(front, rest, from, i + 1);
      }
    }
  }

  /** Joined closed items split back into exactly those items. */
  lemma {:induction false} JoinSplits(parts: seq<Bytes>)
    requires parts != [] && forall k | 0 <= k < |parts| :: IsClosed(parts[k])
    ensures Segments(Join(parts), 0, 0) == parts
  {
    hide IsCut, IsClosed;
    var b := Join(parts);
    if |parts| == 1 {
      ClosedHasNoCuts(parts[0]);
      NoCutsAhead(b, 0, 0, |b|);
      assert b[0..] == b;
    } else {
      var item, rest := parts[0], Join(parts[1..]);
      JoinSplits(parts[1..]);
      CutsOfJoined(item, rest);
      NoCutsAhead(b, 0, 0, |item|);
      var front := item + [COMMA];
      assert b == front + rest && b[0..|item|] == item;
      SegmentsOfBack(front, rest, 0, 0);
      assert parts == [item] + parts[1..];
    }
  }

  lemma ClosedHasNoCuts(item: Bytes)
    requires IsClosed(item)
    ensures forall i | 0 <= i < |item| :: !IsCut(item, i)
  {}

  // ---- What the scanners do not depend on ----

  /** Bytes that mean nothing in the mode they stand in. */
  predicate IsInert(mode: Mode, x: Byte) {
    match mode
    case Normal => false
    case SingleQuote => x != APOSTROPHE
    case DoubleQuote => x != QUOTE
    case LineComment => x != NEWLINE
    case BlockComment => x != STAR && x != SLASH
  }

  /** Two texts that differ only in inert bytes inside literals and comments of the first. */
  predicate DifferInside(a: Bytes, b: Bytes, start: nat) {
    && start <= |a| == |b|
    && (forall i | 0 <= i < start :: a[i] == b[i])
    && forall i | start <= i < |a| && a[i] != b[i] ::
         var lex := LexAt(a, start, i);
         !lex.second && IsInert(lex.mode, a[i]) && IsInert(lex.mode, b[i])
  }

  /** Such texts have the same lexical state everywhere. */
  lemma {:induction false} SameLex(a: Bytes, b: Bytes, start: nat, i: nat)
    requires DifferInside(a, b, start) && start <= i <= |a|
    ensures LexAt(b, start, i) == LexAt(a, start, i)
    decreases i
  {
    if i > start {
      SameLex(a, b, start, i - 1);
      SameNext(a, b, start, i - 1);
    }
  }

  lemma SameNext(a: Bytes, b: Bytes, start: nat, i: nat)
    requires DifferInside(a, b, start) && start <= i < |a|
    ensures Next(b, i, LexAt(a, start, i)) == Next(a, i, LexAt(a, start, i))
  {}

  lemma SameOutside(a: Bytes, b: Bytes, start: nat, i: nat)
    requires DifferInside(a, b, start) && start <= i < |a|
    ensures LexAt(a, start, i).mode == Normal || LexAt(a, start, i).second ==> a[i] == b[i]
  {}

  /** The byte before a position outside everything is the same in both. */
  lemma SameBefore(a: Bytes, b: Bytes, start: nat, i: nat)
    requires DifferInside(a, b, start) && start < i <= |a| && IsCode(a, start, i)
    ensures a[i - 1] == b[i - 1]
  {}

  /** A keyword outside literals and comments is a keyword in both texts. */
  lemma SameKeyword(a: Bytes, b: Bytes, keyword: Bytes, start: nat, i: nat)
    requires DifferInside(a, b, start) && IsWord(keyword) && start <= i <= |a|
    requires IsCode(a, start, i) && KeywordAt(a, keyword, i)
    ensures KeywordAt(b, keyword, i)
  {
    forall p | i <= p <= i + |keyword| && p < |a|
      ensures a[p] == b[p]
    {
      ThroughKeyword(a, keyword, start, i, p - i);
      SameOutside(a, b, start, p);
    }
    if i > start {
      SameBefore(a, b, start, i);
    }
  }

  lemma DifferBothWays(a: Bytes, b: Bytes, start: nat)
    requires DifferInside(a, b, start)
    ensures DifferInside(b, a, start)
  {
    hide LexAt;
    forall i | start <= i < |b| && b[i] != a[i]
      ensures var lex := LexAt(b, start, i);
              !lex.second && IsInert(lex.mode, b[i]) && IsInert(lex.mode, a[i])
    {
      SameLex(a, b, start, i);
    }
  }

  /** Changing bytes that are not delimiters inside literals and comments moves no hit and no cut. */
  lemma ScansAgree(a: Bytes, b: Bytes, keyword: Bytes, start: nat, i: nat)
    requires DifferInside(a, b, start) && IsWord(keyword) && start <= i <= |a|
    ensures IsHit(a, keyword, start, i) == IsHit(b, keyword, start, i)
    ensures IsTopLevelHit(a, keyword, start, i) == IsTopLevelHit(b, keyword, start, i)
    ensures start == 0 && i < |a| ==> IsCut(a, i) == IsCut(b, i)
  {
    hide LexAt, KeywordAt;
    SameLex(a, b, start, i);
    DifferBothWays(a, b, start);
    if IsCode(a, start, i) {
      if KeywordAt(a, keyword, i) {
        SameKeyword(a, b, keyword, start, i);
      }
      if KeywordAt(b, keyword, i) {
        SameKeyword(b, a, keyword, start, i);
      }
      if i < |a| {
        SameOutside(a, b, start, i);
      }
    }
  }

  // ---- Searching on from a hit ----

  /** A scan started at a top-level position sees what the whole scan sees from there on. */
  lemma {:induction false} RestartAgrees(b: Bytes, start: nat, from: nat, i: nat)
    requires start <= from <= i <= |b| && IsTopLevel(b, start, from)
    ensures LexAt(b, from, i) == LexAt(b, start, i)
    decreases i
  {
    if i > from {
      RestartAgrees(b, start, from, i - 1);
    }
  }

  /** `top_level_select_projection`: the text between the first top-level SELECT and the first
      top-level FROM after it. */
  method TopLevelSelectProjection(b: Bytes, select: Bytes, from: Bytes) returns (range: Option<(nat, nat)>)
    requires IsWord(select) && IsWord(from)
    ensures range.Some? ==>
              var (lo, hi) := range.value;
              && |select| <= lo <= hi <= |b|
              && IsTopLevelHit(b, select, 0, lo - |select|)
              && (forall i | 0 <= i < lo - |select| :: !IsTopLevelHit(b, select, 0, i))
              && IsTopLevelHit(b, from, 0, hi)
              && (forall i | lo <= i < hi :: !IsTopLevelHit(b, from, 0, i))
    ensures range.None? ==>
              || (forall i | 0 <= i < |b| :: !IsTopLevelHit(b, select, 0, i))
              || (exists s :: 0 <= s < |b| && IsTopLevelHit(b, select, 0, s)
                              && forall i | s + |select| <= i < |b| :: !IsTopLevelHit(b, from, 0, i))
  {
    hide LexAt, KeywordAt;
    var found := FindTopLevelKeyword(b, select, 0, false);
    if found.None? {
      return None;
    }
    var end := found.value + |select|;
    PastKeyword(b, select, 0, found.value);
    forall i | end <= i <= |b|
      ensures IsTopLevelHit(b, from, end, i) == IsTopLevelHit(b, from, 0, i)
    {
      RestartAgrees(b, 0, end, i);
    }
    var next := FindTopLevelKeyword(b, from, end, false);
    if next.None? {
      assert IsTopLevelHit(b, select, 0, found.value);
      return None;
    }
    return Some((end, next.value));
  }
}
