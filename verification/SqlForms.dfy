/** What the SQL scanners take for literals, comments, keywords, cuts and blanks, in numerals (connection.rs). */
module SqlForms {
  import opened Wire
  import opened SqlScan
  import opened SqlSplit
  import Identifiers

  // ---- Literals and comments ----

  /** A position of the code with `depth` parentheses open. */
  predicate CodeAt(b: Bytes, start: nat, i: nat, depth: nat) {
    start <= i <= |b| && LexAt(b, start, i) == Lex(Normal, depth, false)
  }

  /** Between lo and hi every quote is doubled. */
  predicate QuotesDoubled(b: Bytes, lo: nat, hi: nat, quote: Byte)
    requires lo <= hi <= |b|
    decreases hi - lo
  {
    if lo == hi then true
    else if b[lo] != quote then QuotesDoubled(b, lo + 1, hi, quote)
    else lo + 1 < hi && b[lo + 1] == quote && QuotesDoubled(b, lo + 2, hi, quote)
  }

  /** From an apostrophe (39) or quotation mark (34) to the next one that is not doubled nothing is code. */
  lemma {:induction false} LiteralSkipped(b: Bytes, start: nat, i: nat, j: nat, depth: nat)
    requires CodeAt(b, start, i, depth) && i < j < |b|
    requires (b[i] == 39 || b[i] == 34) && b[j] == b[i] && (j + 1 == |b| || b[j + 1] != b[i])
    requires QuotesDoubled(b, i + 1, j, b[i])
    ensures forall k | i < k <= j :: !IsCode(b, start, k)
    ensures CodeAt(b, start, j + 1, depth)
  {
    InsideQuotes(b, start, i + 1, j, depth, if b[i] == 39 then SingleQuote else DoubleQuote);
  }

  lemma {:induction false} InsideQuotes(b: Bytes, start: nat, lo: nat, j: nat, depth: nat, mode: Mode)
    requires start <= lo <= j < |b| && LexAt(b, start, lo) == Lex(mode, depth, false)
    requires mode == SingleQuote || mode == DoubleQuote
    requires b[j] == (if mode == SingleQuote then 39 else 34) && (j + 1 == |b| || b[j + 1] != b[j])
    requires QuotesDoubled(b, lo, j, b[j])
    ensures forall k | lo <= k <= j :: !IsCode(b, start, k)
    ensures CodeAt(b, start, j + 1, depth)
    decreases j - lo
  {
    if lo < j {
      if b[lo] != b[j] {
        InsideQuotes(b, start, lo + 1, j, depth, mode);
      } else {
        assert LexAt(b, start, lo + 1) == Lex(mode, depth, true);
        InsideQuotes(b, start, lo + 2, j, depth, mode);
      }
    }
  }

  /** From two dashes (45) to the line feed (10) nothing is code. */
  lemma {:induction false} LineCommentSkipped(b: Bytes, start: nat, i: nat, j: nat, depth: nat)
    requires CodeAt(b, start, i, depth) && i + 2 <= j < |b|
    requires b[i] == 45 && b[i + 1] == 45 && b[j] == 10 && forall k | i + 2 <= k < j :: b[k] != 10
    ensures forall k | i < k <= j :: !IsCode(b, start, k)
    ensures CodeAt(b, start, j + 1, depth)
  {
    assert LexAt(b, start, i + 1) == Lex(LineComment, depth, true);
    assert LexAt(b, start, i + 2) == Lex(LineComment, depth, false);
    InsideLine(b, start, i + 2, j, depth);
  }

  lemma {:induction false} InsideLine(b: Bytes, start: nat, lo: nat, j: nat, depth: nat)
    requires start <= lo <= j < |b| && LexAt(b, start, lo) == Lex(LineComment, depth, false)
    requires b[j] == 10 && forall k | lo <= k < j :: b[k] != 10
    ensures forall k | lo <= k <= j :: !IsCode(b, start, k)
    ensures CodeAt(b, start, j + 1, depth)
    decreases j - lo
  {
    if lo < j {
      InsideLine(b, start, lo + 1, j, depth);
    }
  }

  /** From slash and star (47, 42) through the first star and slash behind them nothing is code; comments do not
      nest. */
  lemma {:induction false} BlockCommentSkipped(b: Bytes, start: nat, i: nat, j: nat, depth: nat)
    requires CodeAt(b, start, i, depth) && i + 2 <= j && j + 1 < |b|
    requires b[i] == 47 && b[i + 1] == 42 && b[j] == 42 && b[j + 1] == 47
    requires forall k | i + 2 <= k < j :: b[k] != 42 || b[k + 1] != 47
    ensures forall k | i < k <= j + 1 :: !IsCode(b, start, k)
    ensures CodeAt(b, start, j + 2, depth)
  {
    assert LexAt(b, start, i + 1) == Lex(BlockComment, depth, true);
    assert LexAt(b, start, i + 2) == Lex(BlockComment, depth, false);
    InsideBlock(b, start, i + 2, j, depth);
  }

  lemma {:induction false} InsideBlock(b: Bytes, start: nat, lo: nat, j: nat, depth: nat)
    requires start <= lo <= j && j + 1 < |b| && LexAt(b, start, lo) == Lex(BlockComment, depth, false)
    requires b[j] == 42 && b[j + 1] == 47 && forall k | lo <= k < j :: b[k] != 42 || b[k + 1] != 47
    ensures forall k | lo <= k <= j + 1 :: !IsCode(b, start, k)
    ensures CodeAt(b, start, j + 2, depth)
    decreases j - lo
  {
    if lo < j {
      InsideBlock(b, start, lo + 1, j, depth);
    } else {
      assert LexAt(b, start, j + 1) == Lex(Normal, depth, true);
    }
  }

  /** Any other byte of the code is passed; parentheses (40, 41) are counted, but never below none. */
  lemma {:induction false} CodePassed(b: Bytes, start: nat, i: nat, depth: nat)
    requires CodeAt(b, start, i, depth) && i < |b| && b[i] != 39 && b[i] != 34
    requires i + 1 < |b| ==> !(b[i] == 45 && b[i + 1] == 45) && !(b[i] == 47 && b[i + 1] == 42)
    ensures CodeAt(b, start, i + 1, if b[i] == 40 then depth + 1
                                    else if b[i] == 41 && depth > 0 then depth - 1 else depth)
  {}

  // ---- Keywords ----

  /** ASCII letters that differ at most in case. */
  predicate SameLetter(x: Byte, y: Byte) {
    x == y || (65 <= x <= 90 && y == x + 32) || (65 <= y <= 90 && x == y + 32)
  }

  /** Letters, digits and the four signs _ $ # @. */
  predicate IsWordByte(x: Byte) {
    x in [95, 36, 35, 64] || 48 <= x < 58 || 65 <= x < 91 || 97 <= x < 123
  }

  /** A keyword is where its letters are, in any case, with no word byte on either side. */
  lemma {:induction false} KeywordForm(b: Bytes, keyword: Bytes, i: nat)
    ensures KeywordAt(b, keyword, i) <==>
            && i + |keyword| <= |b|
            && (forall k | 0 <= k < |keyword| :: SameLetter(b[i + k], keyword[k]))
            && (i > 0 ==> !IsWordByte(b[i - 1]))
            && (i + |keyword| < |b| ==> !IsWordByte(b[i + |keyword|]))
  {
    hide SameLetter, Lower, IsWordByte, IsIdentifierByte;
    forall x: Byte, y: Byte ensures SameLetter(x, y) <==> Lower(x) == Lower(y) {
      LetterCases(x, y);
    }
    forall x: Byte ensures IsWordByte(x) <==> IsIdentifierByte(x) {
      WordBytes(x);
    }
  }

  lemma LetterCases(x: Byte, y: Byte)
    ensures SameLetter(x, y) <==> Lower(x) == Lower(y)
  {}

  lemma WordBytes(x: Byte)
    ensures IsWordByte(x) <==> IsIdentifierByte(x)
  {}

  // ---- Cuts ----

  /** Bytes that begin no literal, comment or parenthesis, and are no comma. */
  predicate IsPlain(item: Bytes) {
    forall k | 0 <= k < |item| :: item[k] !in [34, 39, 40, 41, 44, 45, 47]
  }

  lemma {:induction false} PlainLex(item: Bytes, i: nat)
    requires IsPlain(item) && i <= |item|
    ensures CodeAt(item, 0, i, 0)
  {
    if i > 0 {
      PlainLex(item, i - 1);
      CodePassed(item, 0, i - 1, 0);
    }
  }

  function JoinedByComma(parts: seq<Bytes>): Bytes {
    if parts == [] then [] else if |parts| == 1 then parts[0] else parts[0] + [44] + JoinedByComma(parts[1..])
  }

  /** Plain items with commas (44) between them are the stretches that are found. */
  lemma {:induction false} PlainItems(parts: seq<Bytes>)
    requires parts != [] && forall k | 0 <= k < |parts| :: IsPlain(parts[k])
    ensures Segments(JoinedByComma(parts), 0, 0) == parts
  {
    hide IsPlain, IsClosed, Segments;
    forall k | 0 <= k < |parts| ensures IsClosed(parts[k]) {
      PlainIsClosed(parts[k]);
    }
    SameJoin(parts);
    JoinSplits(parts);
  }

  lemma PlainIsClosed(item: Bytes)
    requires IsPlain(item)
    ensures IsClosed(item)
  {
    hide LexAt;
    PlainLex(item, |item|);
    forall i | 0 <= i < |item| ensures !IsCut(item, i) {
      assert item[i] !in [34, 39, 40, 41, 44, 45, 47];
    }
  }

  lemma {:induction false} SameJoin(parts: seq<Bytes>)
    ensures JoinedByComma(parts) == Join(parts)
  {
    if |parts| > 1 {
      SameJoin(parts[1..]);
    }
  }

  /** A comma in parentheses, or in a literal or comment, cuts nothing. */
  lemma {:induction false} InnerComma(b: Bytes, i: nat, depth: nat)
    requires i < |b| && b[i] == 44
    requires !IsCode(b, 0, i) || (CodeAt(b, 0, i, depth) && depth > 0)
    ensures !IsCut(b, i)
  {}

  /** One at depth 0 does. */
  lemma {:induction false} OuterComma(b: Bytes, i: nat)
    requires i < |b| && b[i] == 44 && CodeAt(b, 0, i, 0)
    ensures IsCut(b, i)
  {}

  // ---- Blanks ----

  /** The 25 characters with the Unicode property White_Space. */
  predicate IsBlank(c: Identifiers.Character) {
    c in [9, 10, 11, 12, 13, 32, 133, 160, 5760, 8192, 8193, 8194, 8195, 8196, 8197, 8198, 8199, 8200, 8201, 8202, 8232,
          8233, 8239, 8287, 12288]
  }

  /** Exactly they are trimmed at the front of a UTF-8 text. */
  lemma {:induction false} BlankInFront(c: Identifiers.Character, rest: Bytes)
    ensures BlankAtFront(Identifiers.Utf8Of(c) + rest) == if IsBlank(c) then |Identifiers.Utf8Of(c)| else 0
  {
    if 0x800 <= c < 0x1_0000 {
      ThreeBytes(c);
    }
  }

  /** And exactly they at its end. */
  lemma {:induction false} BlankBehind(front: Bytes, c: Identifiers.Character)
    ensures BlankAtEnd(front + Identifiers.Utf8Of(c)) == if IsBlank(c) then |Identifiers.Utf8Of(c)| else 0
  {
    var e, b := Identifiers.Utf8Of(c), front + Identifiers.Utf8Of(c);
    assert forall k | 0 <= k < |e| :: b[|front| + k] == e[k];
    if 0x800 <= c < 0x1_0000 {
      ThreeBytes(c);
    }
  }

  lemma ThreeBytes(c: Identifiers.Character)
    requires 0x800 <= c < 0x1_0000
    ensures IsWideBlank(0xE0 + c / 4096, 0x80 + c / 64 % 64, 0x80 + c % 64) <==> IsBlank(c)
  {
    hide IsWideBlank, IsBlank;
    var x, y, z := c / 4096, c / 64 % 64, c % 64;
    assert c / 64 / 64 == x;
    WideBlanks(x, y, z);
  }

  lemma WideBlanks(x: nat, y: nat, z: nat)
    requires x < 16 && y < 64 && z < 64 && x * 4096 + y * 64 + z >= 0x800
    ensures IsWideBlank(0xE0 + x, 0x80 + y, 0x80 + z) <==> IsBlank(x * 4096 + y * 64 + z)
  {}

  // ---- Trimming ----

  predicate AllBlank(text: seq<Identifiers.Character>) {
    forall k | 0 <= k < |text| :: IsBlank(text[k])
  }

  /** Trimming takes off exactly the blanks around a text that neither begins nor ends with one. */
  lemma {:induction false} TextTrimmed(
    lead: seq<Identifiers.Character>, text: seq<Identifiers.Character>, trail: seq<Identifiers.Character>
  )
    requires AllBlank(lead) && AllBlank(trail)
    requires text != [] ==> !IsBlank(text[0]) && !IsBlank(text[|text| - 1])
    ensures Trim(Identifiers.Utf8(lead + text + trail)) == Identifiers.Utf8(text)
  {
    hide TrimStart, TrimEnd, IsBlank;
    assert lead + text + trail == lead + (text + trail);
    FrontTrimmed(lead, text + trail);
    if text == [] {
      assert text + trail == trail + [];
      FrontTrimmed(trail, []);
      NothingTrimmed();
    } else {
      FrontKept(text + trail);
      BackTrimmed(text, trail);
    }
  }

  // The items of a projection are its stretches one by one, trimmed, without the blank ones.

  lemma {:induction false} ItemsAppend(a: seq<Bytes>, b: seq<Bytes>)
    ensures Items(a + b) == Items(a) + Items(b)
  {
    hide Trim;
    if a == [] {
      assert a + b == b;
    } else {
      assert (a + b)[1..] == a[1..] + b;
      ItemsAppend(a[1..], b);
    }
  }

  lemma {:induction false} OneItem(
    lead: seq<Identifiers.Character>, text: seq<Identifiers.Character>, trail: seq<Identifiers.Character>
  )
    requires AllBlank(lead) && AllBlank(trail)
    requires text != [] ==> !IsBlank(text[0]) && !IsBlank(text[|text| - 1])
    ensures Items([Identifiers.Utf8(lead + text + trail)])
         == if text == [] then [] else [Identifiers.Utf8(text)]
  {
    hide Trim, IsBlank, AllBlank;
    TextTrimmed(lead, text, trail);
    var items: seq<Bytes> := [Identifiers.Utf8(lead + text + trail)];
    assert items[1..] == [] && Items([]) == [];
    Identifiers.Utf8Longer(text);
  }

  lemma NothingTrimmed()
    ensures TrimStart([]) == [] && TrimEnd([]) == [] && Identifiers.Utf8([]) == []
  {}

  lemma {:induction false} FrontTrimmed(lead: seq<Identifiers.Character>, rest: seq<Identifiers.Character>)
    requires AllBlank(lead)
    ensures TrimStart(Identifiers.Utf8(lead + rest)) == TrimStart(Identifiers.Utf8(rest))
  {
    hide IsBlank, BlankAtFront;
    if lead == [] {
      assert lead + rest == rest;
    } else {
      assert (lead + rest)[1..] == lead[1..] + rest;
      var e, more := Identifiers.Utf8Of(lead[0]), Identifiers.Utf8(lead[1..] + rest);
      assert Identifiers.Utf8(lead + rest) == e + more;
      BlankInFront(lead[0], more);
      assert (e + more)[|e|..] == more;
      FrontTrimmed(lead[1..], rest);
    }
  }

  lemma FrontKept(text: seq<Identifiers.Character>)
    requires text != [] && !IsBlank(text[0])
    ensures TrimStart(Identifiers.Utf8(text)) == Identifiers.Utf8(text)
  {
    hide IsBlank, BlankAtFront;
    BlankInFront(text[0], Identifiers.Utf8(text[1..]));
  }

  lemma {:induction false} BackTrimmed(text: seq<Identifiers.Character>, trail: seq<Identifiers.Character>)
    requires AllBlank(trail) && text != [] && !IsBlank(text[|text| - 1])
    ensures TrimEnd(Identifiers.Utf8(text + trail)) == Identifiers.Utf8(text)
  {
    hide IsBlank, BlankAtEnd;
    var all := text + trail;
    Identifiers.Utf8Last(all);
    var front, c := all[..|all| - 1], all[|all| - 1];
    BlankBehind(Identifiers.Utf8(front), c);
    if trail == [] {
      assert all == text;
    } else {
      assert front == text + trail[..|trail| - 1] && c == trail[|trail| - 1];
      var b := Identifiers.Utf8(all);
      assert b[..|b| - |Identifiers.Utf8Of(c)|] == Identifiers.Utf8(front);
      BackTrimmed(text, trail[..|trail| - 1]);
    }
  }
}
