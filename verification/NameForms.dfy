/** Table references with quoted and unquoted names, in numerals (connection.rs). */
module NameForms {
  import opened Wire
  import opened Identifiers

  /** A name as it is written: between quotation marks, or bare. */
  datatype Written = Written(name: Bytes, quoted: bool)
  {
    /** A bare name has neither quotation mark (34) nor dot (46). */
    predicate Valid() {
      !quoted ==> forall k | 0 <= k < |name| :: name[k] != 34 && name[k] != 46
    }

    function Text(): Bytes {
      if quoted then [34] + TwiceQuoted(name) + [34] else name
    }
  }

  function TwiceQuoted(name: Bytes): Bytes {
    if name == [] then []
    else if name[0] == 34 then [34, 34] + TwiceQuoted(name[1..])
    else [name[0]] + TwiceQuoted(name[1..])
  }

  /** Names with dots (46) between them. */
  function Dotted(names: seq<Written>): Bytes {
    if names == [] then []
    else if |names| == 1 then names[0].Text()
    else names[0].Text() + [46] + Dotted(names[1..])
  }

  /** The bytes 9 to 13, 32, 133 and 160 are taken off both ends, and no others. */
  ghost predicate IsTrimmed(text: Bytes, lead: Bytes, part: Bytes, trail: Bytes) {
    && text == lead + part + trail
    && (forall k | 0 <= k < |lead| :: lead[k] in [9, 10, 11, 12, 13, 32, 133, 160])
    && (forall k | 0 <= k < |trail| :: trail[k] in [9, 10, 11, 12, 13, 32, 133, 160])
    && (part != [] ==> part[0] !in [9, 10, 11, 12, 13, 32, 133, 160]
                       && part[|part| - 1] !in [9, 10, 11, 12, 13, 32, 133, 160])
  }

  lemma BlankBytes(x: Byte)
    ensures IsLatinBlank(x) <==> x in [9, 10, 11, 12, 13, 32, 133, 160]
  {}

  lemma {:induction false} FrontTrimmed(b: Bytes) returns (lead: Bytes)
    ensures b == lead + TrimFront(b)
    ensures forall k | 0 <= k < |lead| :: IsLatinBlank(lead[k])
    ensures TrimFront(b) != [] ==> !IsLatinBlank(TrimFront(b)[0])
  {
    hide IsLatinBlank;
    lead := [];
    if b != [] && IsLatinBlank(b[0]) {
      var more := FrontTrimmed(b[1..]);
      lead := [b[0]] + more;
    }
  }

  lemma {:induction false} BackTrimmed(b: Bytes) returns (trail: Bytes)
    ensures b == TrimBack(b) + trail
    ensures forall k | 0 <= k < |trail| :: IsLatinBlank(trail[k])
    ensures TrimBack(b) != [] ==> !IsLatinBlank(TrimBack(b)[|TrimBack(b)| - 1])
  {
    hide IsLatinBlank;
    trail := [];
    if b != [] && IsLatinBlank(b[|b| - 1]) {
      var more := BackTrimmed(b[..|b| - 1]);
      trail := more + [b[|b| - 1]];
    }
  }

  lemma {:induction false} TrimForm(text: Bytes) returns (lead: Bytes, trail: Bytes)
    ensures IsTrimmed(text, lead, Trim(text), trail)
  {
    hide IsLatinBlank, TrimFront, TrimBack;
    lead := FrontTrimmed(text);
    var inner := TrimFront(text);
    trail := BackTrimmed(inner);
    forall x: Byte ensures IsLatinBlank(x) <==> x in [9, 10, 11, 12, 13, 32, 133, 160] {
      BlankBytes(x);
    }
    if Trim(text) != [] {
      assert Trim(text)[0] == inner[0];
    }
  }

  // ---- Splitting ----

  lemma {:induction false} SameQuoted(name: Bytes)
    ensures [34] + TwiceQuoted(name) + [34] == Quoted(name)
  {
    SameDoubled(name);
  }

  lemma {:induction false} SameDoubled(name: Bytes)
    ensures TwiceQuoted(name) == Doubled(name)
  {
    if name != [] {
      SameDoubled(name[1..]);
    }
  }

  /** A bare name goes into the part under construction byte by byte. */
  lemma {:induction false} PartsOfBare(name: Bytes, rest: Bytes, current: Bytes)
    requires forall k | 0 <= k < |name| :: name[k] != 34 && name[k] != 46
    ensures Parts(name + rest, current) == Parts(rest, current + name)
    decreases |name|
  {
    hide Trim, ReadRun;
    if name == [] {
      assert name + rest == rest && current + [] == current;
    } else {
      assert (name + rest)[1..] == name[1..] + rest;
      PartsOfBare(name[1..], rest, current + [name[0]]);
      assert current + [name[0]] + name[1..] == current + name;
    }
  }

  lemma {:induction false} PartsOfWritten(w: Written, rest: Bytes)
    requires w.Valid() && !StartsWithQuote(rest)
    ensures Parts(w.Text() + rest, []) == Parts(rest, w.name)
  {
    hide Parts, TwiceQuoted;
    if w.quoted {
      SameQuoted(w.name);
      PartsOfQuoted(w.name, rest);
    } else {
      PartsOfBare(w.name, rest, []);
      assert [] + w.name == w.name;
    }
  }

  /** Every reference of quoted and bare names comes apart into these names, each trimmed; it is refused exactly if a
      trimmed name is empty. */
  lemma {:induction false} WrittenSplits(names: seq<Written>)
    requires names != [] && forall k | 0 <= k < |names| :: names[k].Valid()
    ensures |Parts(Dotted(names), [])| == |names|
    ensures forall k | 0 <= k < |names| :: Parts(Dotted(names), [])[k] == Trim(names[k].name)
    ensures SplitParts(Dotted(names)).Some? <==> forall k | 0 <= k < |names| :: Trim(names[k].name) != []
    ensures SplitParts(Dotted(names)).Some? ==> SplitParts(Dotted(names)).value == Parts(Dotted(names), [])
  {
    hide Trim, Parts;
    var first := names[0];
    if |names| == 1 {
      PartsOfWritten(first, []);
      assert first.Text() + [] == first.Text();
      PartsAtDot([], first.name);
    } else {
      var later := Dotted(names[1..]);
      assert first.Text() + [46] + later == first.Text() + ([46] + later);
      PartsOfWritten(first, [46] + later);
      PartsAtDot(later, first.name);
      WrittenSplits(names[1..]);
      assert forall k | 1 <= k < |names| :: names[k] == names[1..][k - 1];
    }
    var parts := Parts(Dotted(names), []);
    assert [] in parts <==> exists k | 0 <= k < |parts| :: parts[k] == [];
  }

  // ---- Where a part ends ----

  predicate IsNameByte(x: Byte) {
    x in [95, 64, 35, 36] || 48 <= x < 58 || 65 <= x < 91 || 97 <= x < 123
  }

  /** A bare part is a letter or underscore (95) and all letters, digits and _ @ # $ behind it. */
  lemma {:induction false} BarePartEnds(b: Bytes, offset: nat, end: nat)
    requires offset < end <= |b|
    requires b[offset] == 95 || 65 <= b[offset] < 91 || 97 <= b[offset] < 123
    requires forall k | offset < k < end :: IsNameByte(b[k])
    requires end < |b| ==> !IsNameByte(b[end])
    ensures PartEnd(b, offset) == Some(end)
  {
    WordEnds(b, offset + 1, end);
  }

  lemma {:induction false} WordEnds(b: Bytes, i: nat, end: nat)
    requires i <= end <= |b| && (forall k | i <= k < end :: IsNameByte(b[k])) && (end < |b| ==> !IsNameByte(b[end]))
    ensures WordEnd(b, i) == end
    decreases end - i
  {
    if i < end {
      WordEnds(b, i + 1, end);
    }
  }

  /** There is no part where a text ends, or before any other byte but a quotation mark (34). */
  lemma {:induction false} NoPart(b: Bytes, offset: nat)
    ensures PartEnd(b, offset).None? <==>
            || offset >= |b|
            || (b[offset] != 34 && b[offset] != 95 && !(65 <= b[offset] < 91) && !(97 <= b[offset] < 123))
  {
    hide ReadRun, WordEnd;
  }

  // ---- UTF-8 ----

  /** What the encoding of a character carries: a lead byte that tells its length, and six bits a byte behind it. */
  lemma {:induction false} Utf8Carries(c: Character)
    ensures var e := Utf8Of(c);
            && (forall k | 0 < k < |e| :: 0x80 <= e[k] < 0xC0)
            && match |e|
               case 1 => e[0] == c < 0x80
               case 2 => 0xC2 <= e[0] < 0xE0 && (e[0] as int - 0xC0) * 64 + (e[1] - 0x80) == c
               case 3 => 0xE0 <= e[0] < 0xF0 && c >= 0x800
                         && ((e[0] as int - 0xE0) * 64 + (e[1] - 0x80)) * 64 + (e[2] - 0x80) == c
               case _ => |e| == 4 && 0xF0 <= e[0] < 0xF5 && c >= 0x1_0000
                         && (((e[0] as int - 0xF0) * 64 + (e[1] - 0x80)) * 64 + (e[2] - 0x80)) * 64 + (e[3] - 0x80) == c
  {
    assert c / 4096 == c / 64 / 64 && c / 262_144 == c / 64 / 64 / 64;
  }
}
