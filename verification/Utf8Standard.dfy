/**
 The codec against RFC 3629: which code points are encoded as the standard says, and which
 byte strings the decoders accept beyond its texts.
 */
module Utf8Standard {
  import opened Utf8

  /** The characters of section 3 of RFC 3629: up to 0x10ffff, without the surrogates. */
  predicate IsCharacter(ui: Bits) {
    ui <= 0x10_ffff && !(0xd800 <= ui <= 0xdfff)
  }

  /** The octets that section 3 defines, three bits in the four-byte lead; none for what is not a character. */
  ghost function StandardBytes(ui: Bits): (r: Option<seq<Byte>>)
    ensures r.Some? <==> IsCharacter(ui)
  {
    if !IsCharacter(ui) then None
    else if ui > 0xffff then
      Some([Lead(ui >> 18, 0x07, 0xf0), Continuation(ui >> 12), Continuation(ui >> 6), Continuation(ui)])
    else if ui > 0x7ff then
      Some([Lead(ui >> 12, 0x0f, 0xe0), Continuation(ui >> 6), Continuation(ui)])
    else if ui > 0x7f then
      Some([Lead(ui >> 6, 0x1f, 0xc0), Continuation(ui)])
    else
      Some([(ui & 0x7f) as Byte])
  }

  lemma LeadBits(ui: Bits)
    requires ui <= 0x10_ffff
    ensures Lead(ui >> 18, 0x07, 0xf0) == Lead(ui >> 18, 0x03, 0xf0) <==> ui < 0x10_0000
  {}

  /** The encoder follows the standard exactly for the characters below 0x100000; it never refuses. */
  lemma FollowsStandard(ui: Bits)
    ensures StandardBytes(ui) == Some(EncodeRune(ui)) <==> ui < 0x10_0000 && !(0xd800 <= ui <= 0xdfff)
  {
    hide Lead, Continuation;
    if 0xffff < ui <= 0x10_ffff {
      LeadBits(ui);
      assert EncodeRune(ui)[0] == Lead(ui >> 18, 0x03, 0xf0);
      assert StandardBytes(ui).value[0] == Lead(ui >> 18, 0x07, 0xf0);
    }
  }

  ghost predicate IsText(us: seq<Bits>) {
    forall k :: 0 <= k < |us| ==> IsCharacter(us[k])
  }

  ghost function StandardText(us: seq<Bits>): seq<Byte>
    requires IsText(us)
  {
    if us == [] then [] else StandardBytes(us[0]).value + StandardText(us[1..])
  }

  lemma LongLead(ui: Bits)
    requires 0xffff < ui <= 0x10_ffff
    ensures var a := Lead(ui >> 18, 0x07, 0xf0);
      && a & 0x80 != 0 && 0xef < a <= 0xf7
      && Join(Join(Join((a & 0x07) as Bits, Continuation(ui >> 12)), Continuation(ui >> 6)), Continuation(ui)) == ui
  {}

  lemma DecodeStandardRune(ui: Bits, after: seq<Byte>)
    requires IsCharacter(ui)
    ensures DecodeRune(StandardBytes(ui).value + after) == RuneStrLite(ui, |StandardBytes(ui).value|)
    ensures StandardBytes(ui).value != []
  {
    hide Join, Lead, Continuation;
    if ui <= 0x7f {
      OneByte(ui);
    } else if ui <= 0x7ff {
      TwoBytes(ui);
    } else if ui <= 0xffff {
      ThreeBytes(ui);
    } else {
      LongLead(ui);
    }
  }

  /** Both decoders read every text of the standard as its characters, also those from 0x100000 on. */
  lemma {:induction false} DecodesStandard(before: seq<Byte>, us: seq<Bits>)
    requires IsText(us)
    ensures CodePoints(before + StandardText(us), |before|) == Some(us)
    decreases |us|
  {
    hide DecodeRune, StandardBytes, IsCharacter;
    if us == [] {
      assert before + StandardText(us) == before;
    } else {
      var s, first := before + StandardText(us), StandardBytes(us[0]).value;
      DecodeStandardRune(us[0], StandardText(us[1..]));
      assert s[|before|..] == first + StandardText(us[1..]);
      assert s == (before + first) + StandardText(us[1..]);
      DecodesStandard(before + first, us[1..]);
      assert us == [us[0]] + us[1..];
    }
  }

  // The octets of the standard, as its grammar lists them.

  predicate IsTail(b: Byte) {
    0x80 <= b <= 0xbf
  }

  /** The octets of one character, in the terms of section 4 of RFC 3629. */
  predicate IsOctets(p: seq<Byte>) {
    || (|p| == 1 && p[0] <= 0x7f)
    || (|p| == 2 && 0xc2 <= p[0] <= 0xdf && IsTail(p[1]))
    || (|p| == 3 && IsLeadOfThree(p[0], p[1]) && IsTail(p[2]))
    || (|p| == 4 && IsLeadOfFour(p[0], p[1]) && IsTail(p[2]) && IsTail(p[3]))
  }

  predicate IsLeadOfThree(a: Byte, b: Byte) {
    if a == 0xe0 then 0xa0 <= b <= 0xbf
    else if a == 0xed then 0x80 <= b <= 0x9f
    else 0xe1 <= a <= 0xef && IsTail(b)
  }

  predicate IsLeadOfFour(a: Byte, b: Byte) {
    if a == 0xf0 then 0x90 <= b <= 0xbf
    else if a == 0xf4 then 0x80 <= b <= 0x8f
    else 0xf1 <= a <= 0xf3 && IsTail(b)
  }

  lemma OctetsOfTwo(ui: Bits)
    requires 0x7f < ui <= 0x7ff
    ensures 0xc2 <= Lead(ui >> 6, 0x1f, 0xc0) <= 0xdf && IsTail(Continuation(ui))
  {}

  lemma OctetsOfThree(ui: Bits)
    requires 0x7ff < ui <= 0xffff && IsCharacter(ui)
    ensures IsLeadOfThree(Lead(ui >> 12, 0x0f, 0xe0), Continuation(ui >> 6)) && IsTail(Continuation(ui))
  {}

  lemma OctetsOfFour(ui: Bits)
    requires 0xffff < ui <= 0x10_ffff
    ensures IsLeadOfFour(Lead(ui >> 18, 0x07, 0xf0), Continuation(ui >> 12))
    ensures IsTail(Continuation(ui >> 6)) && IsTail(Continuation(ui))
  {}

  lemma {:induction false} TwoOfOctets(a: Byte, b: Byte) returns (ui: Bits)
    requires 0xc2 <= a <= 0xdf && IsTail(b)
    ensures 0x7f < ui <= 0x7ff && Lead(ui >> 6, 0x1f, 0xc0) == a && Continuation(ui) == b
  {
    ui := Join((a & 0x1f) as Bits, b);
  }

  lemma {:induction false} ThreeOfOctets(a: Byte, b: Byte, c: Byte) returns (ui: Bits)
    requires IsLeadOfThree(a, b) && IsTail(c)
    ensures 0x7ff < ui <= 0xffff && IsCharacter(ui)
    ensures Lead(ui >> 12, 0x0f, 0xe0) == a && Continuation(ui >> 6) == b && Continuation(ui) == c
  {
    ui := Join(Join((a & 0x0f) as Bits, b), c);
  }

  lemma {:induction false} FourOfOctets(a: Byte, b: Byte, c: Byte, d: Byte) returns (ui: Bits)
    requires IsLeadOfFour(a, b) && IsTail(c) && IsTail(d)
    ensures 0xffff < ui <= 0x10_ffff
    ensures Lead(ui >> 18, 0x07, 0xf0) == a && Continuation(ui >> 12) == b
    ensures Continuation(ui >> 6) == c && Continuation(ui) == d
  {
    ui := Join(Join(Join((a & 0x07) as Bits, b), c), d);
  }

  lemma StandardIsOctets(ui: Bits)
    requires IsCharacter(ui)
    ensures IsOctets(StandardBytes(ui).value)
  {
    hide Lead, Continuation, IsLeadOfThree, IsLeadOfFour, IsTail;
    if ui <= 0x7f {
      OneByte(ui);
    } else if ui <= 0x7ff {
      OctetsOfTwo(ui);
    } else if ui <= 0xffff {
      OctetsOfThree(ui);
    } else {
      OctetsOfFour(ui);
    }
  }

  lemma OneOfOctets(a: Byte)
    requires a <= 0x7f
    ensures StandardBytes((a & 0x7f) as Bits) == Some([a])
  {}

  lemma EncodeTwo(ui: Bits)
    requires 0x7f < ui <= 0x7ff
    ensures StandardBytes(ui) == Some([Lead(ui >> 6, 0x1f, 0xc0), Continuation(ui)])
  {
    hide Lead, Continuation;
  }

  lemma EncodeThree(ui: Bits)
    requires 0x7ff < ui <= 0xffff && IsCharacter(ui)
    ensures StandardBytes(ui) == Some([Lead(ui >> 12, 0x0f, 0xe0), Continuation(ui >> 6), Continuation(ui)])
  {
    hide Lead, Continuation;
  }

  lemma EncodeFour(ui: Bits)
    requires 0xffff < ui <= 0x10_ffff
    ensures StandardBytes(ui) ==
      Some([Lead(ui >> 18, 0x07, 0xf0), Continuation(ui >> 12), Continuation(ui >> 6), Continuation(ui)])
  {
    hide Lead, Continuation;
  }

  lemma {:induction false} CharacterOfTwo(p: seq<Byte>) returns (ui: Bits)
    requires |p| == 2 && 0xc2 <= p[0] <= 0xdf && IsTail(p[1])
    ensures StandardBytes(ui) == Some(p)
  {
    hide Lead, Continuation, IsLeadOfThree, IsLeadOfFour, IsTail, StandardBytes, IsCharacter;
    ui := TwoOfOctets(p[0], p[1]);
    EncodeTwo(ui);
    assert p == [p[0], p[1]];
  }

  lemma {:induction false} CharacterOfThree(p: seq<Byte>) returns (ui: Bits)
    requires |p| == 3 && IsLeadOfThree(p[0], p[1]) && IsTail(p[2])
    ensures StandardBytes(ui) == Some(p)
  {
    hide Lead, Continuation, IsLeadOfThree, IsLeadOfFour, IsTail, StandardBytes, IsCharacter;
    ui := ThreeOfOctets(p[0], p[1], p[2]);
    EncodeThree(ui);
    assert p == [p[0], p[1], p[2]];
  }

  lemma {:induction false} CharacterOfFour(p: seq<Byte>) returns (ui: Bits)
    requires |p| == 4 && IsLeadOfFour(p[0], p[1]) && IsTail(p[2]) && IsTail(p[3])
    ensures StandardBytes(ui) == Some(p)
  {
    hide Lead, Continuation, IsLeadOfThree, IsLeadOfFour, IsTail, StandardBytes, IsCharacter;
    ui := FourOfOctets(p[0], p[1], p[2], p[3]);
    EncodeFour(ui);
    assert p == [p[0], p[1], p[2], p[3]];
  }

  /** Octets that the grammar lists encode a character. */
  lemma {:induction false} CharacterOfOctets(p: seq<Byte>) returns (ui: Bits)
    requires IsOctets(p)
    ensures StandardBytes(ui) == Some(p)
  {
    hide IsLeadOfThree, IsLeadOfFour, IsTail, StandardBytes;
    if |p| == 1 {
      ui := (p[0] & 0x7f) as Bits;
      OneOfOctets(p[0]);
      assert p == [p[0]];
    } else if |p| == 2 {
      ui := CharacterOfTwo(p);
    } else if |p| == 3 {
      ui := CharacterOfThree(p);
    } else {
      ui := CharacterOfFour(p);
    }
  }

  /**
   The first piece a decoder takes from a text is the standard's encoding of the rune it
   reads if and only if it is octets of the standard.
   */
  lemma PieceIsStandardIff(s: seq<Byte>)
    requires DecodeRune(s).len > 0
    ensures var r := DecodeRune(s); StandardBytes(r.rune) == Some(s[..r.len]) <==> IsOctets(s[..r.len])
  {
    hide DecodeRune, StandardBytes, IsOctets, IsCharacter;
    var r := DecodeRune(s);
    var p := s[..r.len];
    assert s == p + s[r.len..];
    if IsOctets(p) {
      var ui := CharacterOfOctets(p);
      DecodeStandardRune(ui, s[r.len..]);
    }
    if StandardBytes(r.rune) == Some(p) {
      StandardIsOctets(r.rune);
    }
  }

  /** Every piece a decoder takes from a text, from byte i on, is octets of the standard. */
  ghost predicate AllOctets(s: seq<Byte>, i: nat)
    requires i <= |s|
    decreases |s| - i
  {
    i == |s| ||
    var n := DecodeRune(s[i..]).len;
    n > 0 && IsOctets(s[i..i + n]) && AllOctets(s, i + n)
  }

  ghost predicate IsEncodingOf(s: seq<Byte>, us: seq<Bits>) {
    IsText(us) && StandardText(us) == s
  }

  lemma TextCons(ui: Bits, us: seq<Bits>)
    ensures IsText([ui] + us) <==> IsCharacter(ui) && IsText(us)
  {
    var all := [ui] + us;
    if IsText(all) {
      assert forall k :: 0 <= k < |us| ==> us[k] == all[k + 1];
      assert all[0] == ui;
    }
  }

  /** An encoding taken apart behind its first character, given that the standard is never the longer one. */
  lemma {:induction false} FirstEncoded(p: seq<Byte>, rest: seq<Byte>, ui: Bits, us: seq<Bits>)
    requires IsCharacter(ui) ==> |StandardBytes(ui).value| <= |p|
    requires IsText(us) ==> |StandardText(us)| <= |rest|
    ensures IsEncodingOf(p + rest, [ui] + us) <==> StandardBytes(ui) == Some(p) && IsEncodingOf(rest, us)
  {
    hide StandardBytes, IsCharacter;
    var all := [ui] + us;
    TextCons(ui, us);
    assert all[1..] == us;
    if IsText(all) {
      var first, text := StandardBytes(ui).value, StandardText(us);
      if first + text == p + rest {
        assert |first| == |p|;
        assert first == (first + text)[..|p|] == (p + rest)[..|p|] == p;
        assert text == (first + text)[|p|..] == (p + rest)[|p|..] == rest;
      }
    }
  }

  lemma ShortestForm(s: seq<Byte>)
    requires DecodeRune(s).len > 0
    ensures var r := DecodeRune(s); IsCharacter(r.rune) ==> |StandardBytes(r.rune).value| <= r.len
  {
    hide Lead, Continuation, Join;
    if s[0] & 0x80 == 0 {
      LowBits(s[0]);
    } else if s[0] <= 0xdf && 1 < |s| {
      JoinedBits(s[0], s[1], s[1]);
    } else if s[0] <= 0xef && 2 < |s| {
      JoinedBits(s[0], s[1], s[2]);
    }
  }

  lemma LowBits(a: Byte)
    ensures (a & 0x7f) as Bits <= 0x7f
  {}

  lemma JoinedBits(a: Byte, b: Byte, c: Byte)
    ensures Join((a & 0x1f) as Bits, b) <= 0x7ff
    ensures Join(Join((a & 0x0f) as Bits, b), c) <= 0xffff
  {}

  lemma {:induction false} TextIsShortest(s: seq<Byte>, i: nat)
    requires i <= |s| && CodePoints(s, i).Some? && IsText(CodePoints(s, i).value)
    ensures |StandardText(CodePoints(s, i).value)| <= |s| - i
    decreases |s| - i
  {
    hide DecodeRune, StandardBytes, IsCharacter;
    if i < |s| {
      var r, us := DecodeRune(s[i..]), CodePoints(s, i).value;
      assert us == [r.rune] + us[1..] && CodePoints(s, i + r.len) == Some(us[1..]);
      ShortestForm(s[i..]);
      TextIsShortest(s, i + r.len);
    }
  }

  /** A text that decodes is the encoding of what it decodes to exactly when all its pieces are octets. */
  lemma {:induction false} EncodesItsRunesIff(s: seq<Byte>, i: nat)
    requires i <= |s| && CodePoints(s, i).Some?
    ensures IsEncodingOf(s[i..], CodePoints(s, i).value) <==> AllOctets(s, i)
    decreases |s| - i
  {
    hide DecodeRune, StandardBytes, IsOctets, IsCharacter;
    if i < |s| {
      var r, us := DecodeRune(s[i..]), CodePoints(s, i).value;
      var j := i + r.len;
      assert us == [r.rune] + us[1..] && CodePoints(s, j) == Some(us[1..]);
      assert s[i..][..r.len] == s[i..j] && s[i..] == s[i..j] + s[j..];
      PieceIsStandardIff(s[i..]);
      EncodesItsRunesIff(s, j);
      ShortestForm(s[i..]);
      if IsText(us[1..]) {
        TextIsShortest(s, j);
      }
      FirstEncoded(s[i..j], s[j..], r.rune, us[1..]);
    }
  }

  lemma {:induction false} AllOctetsDecode(s: seq<Byte>, i: nat)
    requires i <= |s| && AllOctets(s, i)
    ensures CodePoints(s, i).Some?
    decreases |s| - i
  {
    hide DecodeRune, IsOctets;
    if i < |s| {
      AllOctetsDecode(s, i + DecodeRune(s[i..]).len);
    }
  }

  /** Some sequence of characters is encoded as this text. */
  ghost predicate IsStandardText(s: seq<Byte>) {
    exists us :: IsEncodingOf(s, us)
  }

  /**
   What the decoders accept is a text of the standard exactly when every piece they take is
   octets of the standard, and then it is the encoding of the runes they find.
   */
  lemma {:induction false} DecodedIsTextIff(s: seq<Byte>)
    requires CodePoints(s, 0).Some?
    ensures IsEncodingOf(s, CodePoints(s, 0).value) <==> AllOctets(s, 0)
    ensures IsStandardText(s) <==> AllOctets(s, 0)
  {
    hide IsEncodingOf, AllOctets, CodePoints;
    EncodesItsRunesIff(s, 0);
    assert s[0..] == s;
    if us :| IsEncodingOf(s, us) {
      DecodedFromText(s, us);
    }
  }

  lemma {:induction false} DecodedFromText(s: seq<Byte>, us: seq<Bits>)
    requires IsEncodingOf(s, us)
    ensures CodePoints(s, 0) == Some(us)
  {
    DecodesStandard([], us);
    assert [] + StandardText(us) == s;
  }

  /** The grammar of section 4: octets of one character after another. */
  ghost predicate IsUtf8Octets(s: seq<Byte>) {
    s == [] || exists n :: 0 < n <= |s| && IsOctets(s[..n]) && IsUtf8Octets(s[n..])
  }

  lemma {:induction false} EncodingIsGrammatical(us: seq<Bits>)
    requires IsText(us)
    ensures IsUtf8Octets(StandardText(us))
  {
    hide IsOctets, StandardBytes, IsCharacter;
    if us != [] {
      var s, first := StandardText(us), StandardBytes(us[0]).value;
      StandardIsOctets(us[0]);
      EncodingIsGrammatical(us[1..]);
      NotEmpty(first);
      assert s[..|first|] == first && s[|first|..] == StandardText(us[1..]);
    }
  }

  lemma NotEmpty(p: seq<Byte>)
    requires IsOctets(p)
    ensures p != []
  {}

  lemma {:induction false} GrammaticalIsEncoding(s: seq<Byte>) returns (us: seq<Bits>)
    requires IsUtf8Octets(s)
    ensures IsEncodingOf(s, us)
  {
    hide IsOctets, StandardBytes, IsCharacter;
    us := [];
    if s != [] {
      var n :| 0 < n <= |s| && IsOctets(s[..n]) && IsUtf8Octets(s[n..]);
      var ui := CharacterOfOctets(s[..n]);
      var rest := GrammaticalIsEncoding(s[n..]);
      us := [ui] + rest;
      assert us[1..] == rest && s == s[..n] + s[n..];
    }
  }

  /**
   Over all byte strings the definition of section 3, the grammar of section 4, and the
   pieces the decoders take describe the same texts.
   */
  lemma {:induction false} TextsAreOctets(s: seq<Byte>)
    ensures IsStandardText(s) <==> IsUtf8Octets(s)
    ensures IsStandardText(s) <==> AllOctets(s, 0)
  {
    hide AllOctets, CodePoints, StandardText, IsText, IsUtf8Octets;
    if us :| IsEncodingOf(s, us) {
      DecodedFromText(s, us);
      EncodingIsGrammatical(us);
    }
    if IsUtf8Octets(s) {
      var us := GrammaticalIsEncoding(s);
    }
    if AllOctets(s, 0) {
      AllOctetsDecode(s, 0);
    }
    if CodePoints(s, 0).Some? {
      DecodedIsTextIff(s);
    }
  }

  lemma {:induction false} TwoByteText(s: seq<Byte>, ui: Bits)
    requires |s| == 2 && DecodeRune(s) == RuneStrLite(ui, 2)
    ensures CodePoints(s, 0) == Some([ui])
    ensures AllOctets(s, 0) <==> IsOctets(s)
  {
    assert s[0..] == s && s[0..2] == s;
    assert CodePoints(s, 2) == Some([]);
    assert [ui] + [] == [ui];
  }

  /** The decoders do read what is no text: an overlong form, and a second byte that continues nothing. */
  lemma ReadsMalformed()
    ensures CodePoints([0xc0, 0x80], 0) == Some([0]) && !IsStandardText([0xc0, 0x80])
    ensures CodePoints([0xc3, 0x41], 0) == Some([0xc1]) && !IsStandardText([0xc3, 0x41])
  {
    hide AllOctets, CodePoints, IsStandardText;
    TwoByteText([0xc0, 0x80], 0);
    TwoByteText([0xc3, 0x41], 0xc1);
    DecodedIsTextIff([0xc0, 0x80]);
    DecodedIsTextIff([0xc3, 0x41]);
  }

  // The codec on all inputs, standard or not.

  /** How many bytes a lead byte asks for; none for what no text starts with. */
  function Asked(lead: Byte): nat {
    if lead <= 0x7f then 1 else if lead <= 0xdf then 2 else if lead <= 0xef then 3 else if lead <= 0xf7 then 4 else 0
  }

  /** The low six bits of a byte. */
  function Six(b: Byte): Bits {
    (b & 0x3f) as Bits
  }

  lemma JoinedOne(x: Bits, b: Byte)
    ensures Join(x, b) == (x << 6) | Six(b)
  {}

  lemma JoinedTwo(x: Bits, b: Byte, c: Byte)
    ensures Join(Join(x, b), c) == (x << 12) | (Six(b) << 6) | Six(c)
  {}

  lemma JoinedThree(x: Bits, b: Byte, c: Byte, d: Byte)
    ensures Join(Join(Join(x, b), c), d) == (x << 18) | (Six(b) << 12) | (Six(c) << 6) | Six(d)
  {}

  /** A rune is read exactly if there are as many bytes as its lead byte asks for. */
  lemma DecodeRuneIs(s: seq<Byte>)
    ensures DecodeRune(s).len == if s != [] && Asked(s[0]) <= |s| then Asked(s[0]) else 0
  {
    hide Join;
  }

  // The lead gives its low bits, one fewer for each further byte, and each other byte its low six.

  lemma RuneOfOne(s: seq<Byte>)
    requires DecodeRune(s).len == 1
    ensures DecodeRune(s).rune == (s[0] & 0x7f) as Bits
  {
    hide Join;
  }

  lemma RuneOfTwo(s: seq<Byte>)
    requires DecodeRune(s).len == 2
    ensures DecodeRune(s).rune == ((s[0] & 0x1f) as Bits << 6) | Six(s[1])
  {
    hide Join, Six;
    JoinedOne((s[0] & 0x1f) as Bits, s[1]);
  }

  lemma RuneOfThree(s: seq<Byte>)
    requires DecodeRune(s).len == 3
    ensures DecodeRune(s).rune == ((s[0] & 0x0f) as Bits << 12) | (Six(s[1]) << 6) | Six(s[2])
  {
    hide Join, Six;
    JoinedTwo((s[0] & 0x0f) as Bits, s[1], s[2]);
  }

  lemma RuneOfFour(s: seq<Byte>)
    requires DecodeRune(s).len == 4
    ensures DecodeRune(s).rune == ((s[0] & 0x07) as Bits << 18) | (Six(s[1]) << 12) | (Six(s[2]) << 6) | Six(s[3])
  {
    hide Join, Six;
    JoinedThree((s[0] & 0x07) as Bits, s[1], s[2], s[3]);
  }

  /** The encoder's bytes for any value: as many as its size asks for, tails in the range of tails. */
  lemma EncodedShape(ui: Bits)
    ensures var p := EncodeRune(ui);
      && |p| == (if ui <= 0x7f then 1 else if ui <= 0x7ff then 2 else if ui <= 0xffff then 3 else 4)
      && Asked(p[0]) == |p| && p[0] != 0x80 && forall k :: 1 <= k < |p| ==> IsTail(p[k])
  {}
}
