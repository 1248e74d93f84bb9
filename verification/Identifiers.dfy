/** Printing quoted identifiers and reading them back (connection.rs). Texts are their UTF-8
    bytes; a quote is one byte that occurs inside no other character. */
module Identifiers {
  import opened Wire

  const QUOTE: Byte := 34
  const DOT: Byte := 46

  // ---- Printing ----

  function Doubled(name: Bytes): Bytes {
    if name == [] then []
    else (if name[0] == QUOTE then [QUOTE, QUOTE] else [name[0]]) + Doubled(name[1..])
  }

  /** `quote_sql_identifier`. */
  function Quoted(name: Bytes): Bytes {
    [QUOTE] + Doubled(name) + [QUOTE]
  }

  // ---- Reading ----

  /** A quoted run behind its opening quote: what it says, how long it is with its closing
      quote, and whether it has one. */
  datatype Run = Run(content: Bytes, length: nat, closed: bool)

  function ReadRun(b: Bytes): (run: Run)
    ensures run.length <= |b|
  {
    if b == [] then Run([], 0, false)
    else if b[0] == QUOTE then
      if |b| > 1 && b[1] == QUOTE then
        var run := ReadRun(b[2..]);
        Run([QUOTE] + run.content, 2 + run.length, run.closed)
      else Run([], 1, true)
    else
      var run := ReadRun(b[1..]);
      Run([b[0]] + run.content, 1 + run.length, run.closed)
  }

  function ParseQuoted(text: Bytes): Option<Bytes>
    requires text != [] && text[0] == QUOTE
  {
    var run := ReadRun(text[1..]);
    if run.closed then Some(run.content) else None
  }

  ghost predicate Reads(content: Bytes, length: nat, b: Bytes, goal: Run) {
    var run := ReadRun(b);
    goal == Run(content + run.content, length + run.length, run.closed)
  }

  lemma ReadsStart(b: Bytes)
    ensures Reads([], 0, b, ReadRun(b))
  {}

  lemma ReadsNext(content: Bytes, length: nat, b: Bytes, goal: Run)
    requires Reads(content, length, b, goal)
    ensures b == [] ==> goal == Run(content, length, false)
    ensures b != [] && b[0] == QUOTE && |b| > 1 && b[1] == QUOTE ==> Reads(content + [QUOTE], length + 2, b[2..], goal)
    ensures b != [] && b[0] == QUOTE && !(|b| > 1 && b[1] == QUOTE) ==> goal == Run(content, length + 1, true)
    ensures b != [] && b[0] != QUOTE ==> Reads(content + [b[0]], length + 1, b[1..], goal)
  {}

  /** `parse_quoted_identifier`. */
  method ParseQuotedIdentifier(text: Bytes) returns (name: Option<Bytes>)
    requires text != [] && text[0] == QUOTE
    ensures name == ParseQuoted(text)
  {
    hide ReadRun, Reads;
    var out: Bytes := [];
    var i := 1;
    ghost var goal := ReadRun(text[1..]);
    ReadsStart(text[1..]);
    while i < |text|
      invariant 1 <= i <= |text| && Reads(out, i - 1, text[i..], goal)
    {
      ReadsNext(out, i - 1, text[i..], goal);
      if text[i] == QUOTE {
        if i + 1 < |text| && text[i + 1] == QUOTE {
          assert text[i..][2..] == text[i + 2..];
          out := out + [QUOTE];
          i := i + 2;
        } else {
          return Some(out);
        }
      } else {
        assert text[i..][1..] == text[i + 1..];
        out := out + [text[i]];
        i := i + 1;
      }
    }
    ReadsNext(out, i - 1, text[i..], goal);
    return None;
  }

  predicate IsAsciiLetter(x: Byte) {
    65 <= x <= 90 || 97 <= x <= 122
  }

  predicate ContinuesWord(x: Byte) {
    IsAsciiLetter(x) || 48 <= x <= 57 || x == 95 || x == 64 || x == 35 || x == 36
  }

  function WordEnd(b: Bytes, i: nat): nat
    requires i <= |b|
    decreases |b| - i
  {
    if i < |b| && ContinuesWord(b[i]) then WordEnd(b, i + 1) else i
  }

  /** Where the identifier part at `offset` ends, quoted or not. */
  function PartEnd(b: Bytes, offset: nat): Option<nat> {
    if offset >= |b| then None
    else if b[offset] == QUOTE then Some(offset + 1 + ReadRun(b[offset + 1..]).length)
    else if IsAsciiLetter(b[offset]) || b[offset] == 95 then Some(WordEnd(b, offset + 1))
    else None
  }

  /** `consume_identifier_part`. */
  method ConsumeIdentifierPart(b: Bytes, start: nat) returns (end: Option<nat>)
    ensures end == PartEnd(b, start)
  {
    hide ReadRun, Reads;
    if start >= |b| {
      return None;
    }
    var offset := start;
    if b[offset] == QUOTE {
      offset := offset + 1;
      ghost var content: Bytes, goal := [], ReadRun(b[offset..]);
      ReadsStart(b[offset..]);
      while offset < |b|
        invariant start < offset <= |b| && Reads(content, offset - start - 1, b[offset..], goal)
      {
        ReadsNext(content, offset - start - 1, b[offset..], goal);
        if b[offset] == QUOTE {
          offset := offset + 1;
          if offset < |b| && b[offset] == QUOTE {
            assert b[offset - 1..][2..] == b[offset + 1..];
            content := content + [QUOTE];
            offset := offset + 1;
            continue;
          }
          return Some(offset);
        }
        assert b[offset..][1..] == b[offset + 1..];
        content := content + [b[offset]];
        offset := offset + 1;
      }
      ReadsNext(content, offset - start - 1, b[offset..], goal);
      return Some(offset);
    }
    if IsAsciiLetter(b[offset]) || b[offset] == 95 {
      offset := offset + 1;
      while offset < |b| && ContinuesWord(b[offset])
        invariant start < offset <= |b| && WordEnd(b, offset) == WordEnd(b, start + 1)
      {
        offset := offset + 1;
      }
      return Some(offset);
    }
    return None;
  }

  // ---- Quoted identifiers read back ----

  predicate StartsWithQuote(b: Bytes) {
    b != [] && b[0] == QUOTE
  }

  lemma {:induction false} RunOfQuoted(name: Bytes, rest: Bytes)
    ensures var run := ReadRun(Doubled(name) + [QUOTE] + rest);
            if !StartsWithQuote(rest) then run == Run(name, |Doubled(name)| + 1, true)
            else |run.content| > |name| && run.length > |Doubled(name)| + 1
  {
    if name == [] {
      var b := Doubled(name) + [QUOTE] + rest;
      assert b == [QUOTE] + rest;
    } else {
      var head, tail := if name[0] == QUOTE then [QUOTE, QUOTE] else [name[0]], Doubled(name[1..]);
      var b := Doubled(name) + [QUOTE] + rest;
      assert b == head + (tail + [QUOTE] + rest);
      assert b[|head|..] == tail + [QUOTE] + rest;
      RunOfQuoted(name[1..], rest);
    }
  }

  /** A quoted name reads back exactly if no further quote follows it, and only then does the
      identifier end at its closing quote. */
  lemma QuotedReadsBack(name: Bytes, rest: Bytes)
    ensures var text := Quoted(name) + rest;
            && StartsWithQuote(text)
            && (ParseQuoted(text) == Some(name) <==> !StartsWithQuote(rest))
  {
    hide ReadRun, Doubled;
    RunOfQuoted(name, rest);
    assert (Quoted(name) + rest)[1..] == Doubled(name) + [QUOTE] + rest;
  }

  lemma PartEndsAtQuote(before: Bytes, name: Bytes, rest: Bytes)
    ensures PartEnd(before + Quoted(name) + rest, |before|) == Some(|before| + |Quoted(name)|)
            <==> !StartsWithQuote(rest)
  {
    hide ReadRun, Doubled;
    RunOfQuoted(name, rest);
    var b := before + Quoted(name) + rest;
    assert b[|before| + 1..] == Doubled(name) + [QUOTE] + rest;
  }

  /** Conversely, whatever parses is the quoted form of what it parses to, up to the end of the part. */
  lemma {:induction false} RunIsDoubled(b: Bytes)
    requires ReadRun(b).closed
    ensures var run := ReadRun(b);
            && b[..run.length] == Doubled(run.content) + [QUOTE]
            && !StartsWithQuote(b[run.length..])
    decreases |b|
  {
    hide Doubled;
    var run := ReadRun(b);
    if b[0] == QUOTE && !(|b| > 1 && b[1] == QUOTE) {
      DoubledHead(QUOTE, []);
      assert b[..1] == Doubled([]) + [QUOTE];
    } else {
      var n := if b[0] == QUOTE then 2 else 1;
      RunIsDoubled(b[n..]);
      var more := ReadRun(b[n..]);
      DoubledHead(b[0], more.content);
      assert b[..run.length] == b[..n] + b[n..][..more.length];
      assert b[run.length..] == b[n..][more.length..];
    }
  }

  lemma DoubledHead(x: Byte, rest: Bytes)
    ensures Doubled([x] + rest) == (if x == QUOTE then [QUOTE, QUOTE] else [x]) + Doubled(rest)
    ensures Doubled([]) == []
  {}

  lemma ParsedIsQuoted(text: Bytes)
    requires StartsWithQuote(text) && ParseQuoted(text).Some?
    ensures var end := PartEnd(text, 0);
            && end.Some? && end.value <= |text|
            && text[..end.value] == Quoted(ParseQuoted(text).value)
            && !StartsWithQuote(text[end.value..])
  {
    RunIsDoubled(text[1..]);
    var run := ReadRun(text[1..]);
    assert text[..1 + run.length] == [QUOTE] + text[1..][..run.length];
    assert text[1 + run.length..] == text[1..][run.length..];
    assert [QUOTE] + (Doubled(run.content) + [QUOTE]) == Quoted(run.content);
  }

  // ---- Qualified names ----

  /** The white space among the characters 0 to 255. */
  predicate IsLatinBlank(x: Byte) {
    9 <= x <= 13 || x == 32 || x == 0x85 || x == 0xA0
  }

  function TrimFront(b: Bytes): Bytes {
    if b != [] && IsLatinBlank(b[0]) then TrimFront(b[1..]) else b
  }

  function TrimBack(b: Bytes): Bytes {
    if b != [] && IsLatinBlank(b[|b| - 1]) then TrimBack(b[..|b| - 1]) else b
  }

  function Trim(b: Bytes): Bytes {
    TrimBack(TrimFront(b))
  }

  /** The dot-separated parts. Every byte becomes a character of its own, so that the parts are
      the names only if those are ASCII. */
  function Parts(b: Bytes, current: Bytes): seq<Bytes>
    decreases |b|
  {
    if b == [] then [Trim(current)]
    else if b[0] == QUOTE then
      var run := ReadRun(b[1..]);
      Parts(b[1 + run.length..], current + run.content)
    else if b[0] == DOT then [Trim(current)] + Parts(b[1..], [])
    else Parts(b[1..], current + [b[0]])
  }

  function SplitParts(b: Bytes): Option<seq<Bytes>> {
    if [] in Parts(b, []) then None else Some(Parts(b, []))
  }

  ghost predicate SplitsTo(parts: seq<Bytes>, current: Bytes, b: Bytes, goal: seq<Bytes>) {
    parts + Parts(b, current) == goal
  }

  lemma SplitsNext(parts: seq<Bytes>, current: Bytes, b: Bytes, goal: seq<Bytes>)
    requires SplitsTo(parts, current, b, goal)
    ensures b == [] ==> goal == parts + [Trim(current)]
    ensures b != [] && b[0] == QUOTE ==>
              var run := ReadRun(b[1..]); SplitsTo(parts, current + run.content, b[1 + run.length..], goal)
    ensures b != [] && b[0] == DOT ==> SplitsTo(parts + [Trim(current)], [], b[1..], goal)
    ensures b != [] && b[0] != QUOTE && b[0] != DOT ==> SplitsTo(parts, current + [b[0]], b[1..], goal)
  {
    hide Trim, ReadRun;
    if b != [] && b[0] == DOT {
      assert parts + ([Trim(current)] + Parts(b[1..], [])) == parts + [Trim(current)] + Parts(b[1..], []);
    }
  }

  /** The quoted stretch of a table reference, added to the part under construction. */
  method TakeQuoted(b: Bytes, start: nat, current: Bytes) returns (offset: nat, out: Bytes)
    requires start <= |b|
    ensures var run := ReadRun(b[start..]); offset == start + run.length && out == current + run.content
  {
    hide ReadRun, Reads;
    offset, out := start, current;
    ghost var content: Bytes, goal := [], ReadRun(b[start..]);
    ReadsStart(b[start..]);
    assert current + [] == current;
    while offset < |b|
      invariant start <= offset <= |b| && Reads(content, offset - start, b[offset..], goal) && out == current + content
    {
      ReadsNext(content, offset - start, b[offset..], goal);
      if b[offset] == QUOTE {
        offset := offset + 1;
        if offset < |b| && b[offset] == QUOTE {
          assert b[offset - 1..][2..] == b[offset + 1..];
          out := out + [QUOTE];
          content := content + [QUOTE];
          offset := offset + 1;
          continue;
        }
        return;
      }
      assert b[offset..][1..] == b[offset + 1..];
      out := out + [b[offset]];
      content := content + [b[offset]];
      offset := offset + 1;
    }
    ReadsNext(content, offset - start, b[offset..], goal);
  }

  /** `split_table_ref_parts`. */
  method SplitTableRefParts(b: Bytes) returns (result: Option<seq<Bytes>>)
    ensures result == SplitParts(b)
  {
    hide ReadRun, Trim, Parts, SplitsTo;
    var parts: seq<Bytes> := [];
    var current: Bytes := [];
    var offset := 0;
    SplitsStart(b);
    while offset < |b|
      invariant offset <= |b| && SplitsTo(parts, current, b[offset..], Parts(b, []))
    {
      SplitsNext(parts, current, b[offset..], Parts(b, []));
      if b[offset] == QUOTE {
        var from := offset;
        assert b[from..][1..] == b[from + 1..];
        offset, current := TakeQuoted(b, offset + 1, current);
        assert b[from..][1 + ReadRun(b[from + 1..]).length..] == b[offset..];
      } else {
        assert b[offset..][1..] == b[offset + 1..];
        if b[offset] == DOT {
          parts := parts + [Trim(current)];
          current := [];
        } else {
          current := current + [b[offset]];
        }
        offset := offset + 1;
      }
    }
    SplitsNext(parts, current, b[offset..], Parts(b, []));
    parts := parts + [Trim(current)];
    if exists k :: 0 <= k < |parts| && parts[k] == [] {
      return None;
    }
    return Some(parts);
  }

  lemma SplitsStart(b: Bytes)
    ensures SplitsTo([], [], b[0..], Parts(b, []))
  {}

  /** Names quoted and joined by dots. */
  function Qualified(names: seq<Bytes>): Bytes {
    if names == [] then []
    else if |names| == 1 then Quoted(names[0])
    else Quoted(names[0]) + [DOT] + Qualified(names[1..])
  }

  function Trimmed(names: seq<Bytes>): seq<Bytes> {
    if names == [] then [] else [Trim(names[0])] + Trimmed(names[1..])
  }

  lemma PartsOfQuoted(name: Bytes, rest: Bytes)
    requires !StartsWithQuote(rest)
    ensures Parts(Quoted(name) + rest, []) == Parts(rest, name)
  {
    hide Trim, ReadRun, Doubled;
    var b := Quoted(name) + rest;
    assert b[1..] == Doubled(name) + [QUOTE] + rest;
    RunOfQuoted(name, rest);
    assert b[1 + (|Doubled(name)| + 1)..] == rest && [] + name == name;
  }

  lemma PartsAtDot(rest: Bytes, current: Bytes)
    ensures Parts([DOT] + rest, current) == [Trim(current)] + Parts(rest, [])
    ensures Parts([], current) == [Trim(current)]
  {}

  /** Whatever the names contain, quotes and dots included, their parts come out one for one,
      trimmed. */
  lemma {:induction false} QualifiedSplits(names: seq<Bytes>)
    requires names != []
    ensures Parts(Qualified(names), []) == Trimmed(names)
  {
    hide Trim, Quoted, Parts;
    var name := names[0];
    if |names| == 1 {
      assert names[1..] == [] && Quoted(name) + [] == Quoted(name);
      PartsOfQuoted(name, []);
      PartsAtDot([], name);
    } else {
      var later := Qualified(names[1..]);
      assert Quoted(name) + [DOT] + later == Quoted(name) + ([DOT] + later);
      PartsOfQuoted(name, [DOT] + later);
      PartsAtDot(later, name);
      QualifiedSplits(names[1..]);
    }
  }

  // ---- Names as characters ----

  type Character = n: int | 0 <= n < 0x11_0000

  function Utf8Of(c: Character): Bytes {
    if c < 0x80 then [c]
    else if c < 0x800 then [0xC0 + c / 64, 0x80 + c % 64]
    else if c < 0x1_0000 then [0xE0 + c / 4096, 0x80 + c / 64 % 64, 0x80 + c % 64]
    else [0xF0 + c / 262_144, 0x80 + c / 4096 % 64, 0x80 + c / 64 % 64, 0x80 + c % 64]
  }

  function Utf8(name: seq<Character>): Bytes {
    if name == [] then [] else Utf8Of(name[0]) + Utf8(name[1..])
  }

  function AllUtf8(names: seq<seq<Character>>): seq<Bytes> {
    if names == [] then [] else [Utf8(names[0])] + AllUtf8(names[1..])
  }

  predicate IsAscii(name: seq<Character>) {
    forall i | 0 <= i < |name| :: name[i] < 0x80
  }

  predicate NoOuterBlanks(name: seq<Character>) {
    name != [] ==> !IsBlankCharacter(name[0]) && !IsBlankCharacter(name[|name| - 1])
  }

  predicate IsBlankCharacter(c: Character) {
    c < 0x100 && IsLatinBlank(c)
  }

  lemma {:induction false} AsciiIsItself(name: seq<Character>)
    requires IsAscii(name)
    ensures Utf8(name) == name
  {
    if name != [] {
      AsciiIsItself(name[1..]);
      assert name == [name[0]] + name[1..];
    }
  }

  lemma {:induction false} TrimFrontLength(b: Bytes)
    ensures |TrimFront(b)| <= |b| && (|TrimFront(b)| == |b| <==> b == [] || !IsLatinBlank(b[0]))
    ensures b != [] && !IsLatinBlank(b[0]) ==> TrimFront(b) == b
  {
    if b != [] && IsLatinBlank(b[0]) {
      TrimFrontLength(b[1..]);
    }
  }

  lemma {:induction false} TrimBackLength(b: Bytes)
    ensures |TrimBack(b)| <= |b| && (|TrimBack(b)| == |b| <==> b == [] || !IsLatinBlank(b[|b| - 1]))
    ensures b != [] && !IsLatinBlank(b[|b| - 1]) ==> TrimBack(b) == b
  {
    if b != [] && IsLatinBlank(b[|b| - 1]) {
      TrimBackLength(b[..|b| - 1]);
    }
  }

  lemma TrimKeepsAscii(name: seq<Character>)
    requires IsAscii(name)
    ensures Trim(Utf8(name)) == name <==> NoOuterBlanks(name)
  {
    AsciiIsItself(name);
    var b := Utf8(name);
    TrimFrontLength(b);
    TrimBackLength(TrimFront(b));
  }

  lemma {:induction false} Utf8Longer(name: seq<Character>)
    ensures |Utf8(name)| >= |name| && (|Utf8(name)| == |name| <==> IsAscii(name))
  {
    if name != [] {
      Utf8Longer(name[1..]);
      assert forall i | 1 <= i < |name| :: name[i] == name[1..][i - 1];
      assert name[0] in name;
    }
  }

  lemma {:induction false} Utf8Last(name: seq<Character>)
    requires name != []
    ensures Utf8(name) == Utf8(name[..|name| - 1]) + Utf8Of(name[|name| - 1])
  {
    hide Utf8Of;
    if |name| == 1 {
      assert name[1..] == [] && name[..0] == [];
    } else {
      var tail, front := name[1..], name[..|name| - 1];
      Utf8Last(tail);
      assert tail[..|tail| - 1] == front[1..] && tail[|tail| - 1] == name[|name| - 1];
      assert Utf8(front) == Utf8Of(name[0]) + Utf8(front[1..]);
    }
  }

  lemma {:induction false} TrimFrontStarts(b: Bytes)
    ensures TrimFront(b) != [] ==> !IsLatinBlank(TrimFront(b)[0])
  {
    if b != [] && IsLatinBlank(b[0]) {
      TrimFrontStarts(b[1..]);
    }
  }

  lemma {:induction false} TrimBackEnds(b: Bytes)
    ensures TrimBack(b) != [] ==> b != [] && TrimBack(b)[0] == b[0] && !IsLatinBlank(TrimBack(b)[|TrimBack(b)| - 1])
  {
    if b != [] && IsLatinBlank(b[|b| - 1]) {
      TrimBackEnds(b[..|b| - 1]);
    }
  }

  /** No character equals the lead byte of its own encoding but U+00C3, whose second byte is no
      blank. */
  lemma LeadByte(c: Character)
    requires 0x80 <= c < 0x100
    ensures Utf8Of(c) == [0xC0 + c / 64, 0x80 + c % 64] && !IsLatinBlank(Utf8Of(c)[0])
    ensures Utf8Of(c)[0] == c ==> !IsLatinBlank(Utf8Of(c)[1])
  {}

  /** A name that comes out of its trimmed bytes is ASCII. */
  lemma OnlyAsciiKept(name: seq<Character>)
    requires Trim(Utf8(name)) == name
    ensures IsAscii(name)
  {
    if name != [] {
      var b, c := Utf8(name), name[|name| - 1];
      Utf8Longer(name);
      TrimFrontStarts(b);
      TrimBackEnds(TrimFront(b));
      TrimFrontLength(b);
      assert !IsLatinBlank(b[0]) by {
        if IsLatinBlank(b[0]) {
          BlankStart(name);
          assert false;
        }
      }
      assert TrimFront(b) == b && TrimBack(b) == name;
      TrimBackLength(b);
      Utf8Last(name);
      if c >= 0x80 {
        LeadByte(c);
        TrimBackPair(Utf8(name[..|name| - 1]), Utf8Of(c)[0], Utf8Of(c)[1]);
      }
    }
  }

  lemma TrimBackPair(front: Bytes, lead: Byte, last: Byte)
    requires !IsLatinBlank(lead) && IsLatinBlank(last)
    ensures TrimBack(front + [lead, last]) == front + [lead]
  {
    var b := front + [lead, last];
    assert b[..|b| - 1] == front + [lead];
    TrimBackLength(front + [lead]);
  }

  /** The bytes of a name start with a blank only if the name does. */
  lemma BlankStart(name: seq<Character>)
    requires name != [] && Utf8(name) != [] && IsLatinBlank(Utf8(name)[0])
    ensures IsBlankCharacter(name[0])
  {
    var c := name[0];
    assert Utf8(name)[0] == Utf8Of(c)[0];
  }

  lemma TrimKeeps(name: seq<Character>)
    ensures Trim(Utf8(name)) == name <==> IsAscii(name) && NoOuterBlanks(name)
  {
    hide Trim, Utf8;
    if IsAscii(name) {
      TrimKeepsAscii(name);
    } else if Trim(Utf8(name)) == name {
      OnlyAsciiKept(name);
    }
  }

  lemma {:induction false} Utf8At(names: seq<seq<Character>>)
    ensures |AllUtf8(names)| == |names| && forall k | 0 <= k < |names| :: AllUtf8(names)[k] == Utf8(names[k])
  {
    hide Utf8;
    if names != [] {
      Utf8At(names[1..]);
    }
  }

  /** A quoted, dot-joined list of names splits back into exactly those names if and only if all
      are ASCII and none is empty or has outer blanks. */
  lemma QualifiedReadsBack(names: seq<seq<Character>>)
    requires names != []
    ensures var parts := SplitParts(Qualified(AllUtf8(names)));
            parts.Some? && parts.value == names
            <==> forall k | 0 <= k < |names| :: IsAscii(names[k]) && names[k] != [] && NoOuterBlanks(names[k])
  {
    hide Trim, Utf8, NoOuterBlanks, IsAscii, Parts, Qualified;
    var printed := AllUtf8(names);
    Utf8At(names);
    QualifiedSplits(printed);
    TrimmedParts(printed);
    var trimmed := Trimmed(printed);
    assert Parts(Qualified(printed), []) == trimmed;
    forall k | 0 <= k < |names|
      ensures trimmed[k] == Trim(Utf8(names[k]))
      ensures trimmed[k] == names[k] <==> IsAscii(names[k]) && NoOuterBlanks(names[k])
    {
      TrimKeeps(names[k]);
    }
    if trimmed == names && [] !in trimmed {
      forall k | 0 <= k < |names|
        ensures names[k] != []
      {
        assert trimmed[k] in trimmed;
      }
    }
  }

  lemma {:induction false} TrimmedParts(names: seq<Bytes>)
    ensures |Trimmed(names)| == |names| && forall k | 0 <= k < |names| :: Trimmed(names)[k] == Trim(names[k])
  {
    hide Trim;
    if names != [] {
      TrimmedParts(names[1..]);
    }
  }

  /** The one-letter name U+00E9 comes back as the two characters U+00C3 and
      U+00A9. */
  lemma NonAsciiIsBrokenUp()
    ensures SplitParts(Qualified([Utf8([0xE9])])) == Some([[0xC3, 0xA9]])
  {
    var b: Bytes := [0xC3, 0xA9];
    var name: seq<Character> := [0xE9];
    assert name[1..] == [] && Utf8(name) == Utf8Of(0xE9) + Utf8([]) == b;
    var names := [b];
    QualifiedSplits(names);
    TrimFrontLength(b);
    TrimBackLength(b);
    assert names[1..] == [] && Trimmed(names) == [Trim(b)] + Trimmed([]) == [b];
    assert b in [b] && [] !in [b];
  }
}
