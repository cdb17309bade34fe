/**
 UTF-8: the decoder of the segmenter, the second decoder of the string utilities, and the
 encoder. Decoding checks lead bytes and lengths only, never the continuation bytes.
 */
module Utf8 {
  import opened Widths

  type Byte = bv8
  // A code point while its bits are handled, and as the number the segmenter works with.
  type Bits = bv32
  type Rune = int

  datatype Option<+T> = None | Some(value: T)

  datatype RuneStrLite = RuneStrLite(rune: Bits, len: nat)

  datatype RuneStr = RuneStr(rune: Rune, offset: nat, len: nat, unicodeOffset: nat, unicodeLength: nat)

  /** Appends the low six bits of a continuation byte. */
  function Join(r: Bits, b: Byte): Bits {
    (r << 6) | (b & 0x3f) as Bits
  }

  /** One rune from the front of a text; length 0 when there is none. */
  function DecodeRune(s: seq<Byte>): (r: RuneStrLite)
    ensures r.len <= |s| && r.len <= 4
  {
    if |s| == 0 then RuneStrLite(0, 0)
    else if s[0] & 0x80 == 0 then
      RuneStrLite((s[0] & 0x7f) as Bits, 1)
    else if s[0] <= 0xdf && 1 < |s| then
      RuneStrLite(Join((s[0] & 0x1f) as Bits, s[1]), 2)
    else if s[0] <= 0xef && 2 < |s| then
      RuneStrLite(Join(Join((s[0] & 0x0f) as Bits, s[1]), s[2]), 3)
    else if s[0] <= 0xf7 && 3 < |s| then
      RuneStrLite(Join(Join(Join((s[0] & 0x07) as Bits, s[1]), s[2]), s[3]), 4)
    else RuneStrLite(0, 0)
  }

  /** The runes of a text, the first at byte offset i and rune number j. */
  function RunesFrom(s: seq<Byte>, i: nat, j: nat): Option<seq<RuneStr>>
    requires i <= |s|
    decreases |s| - i
  {
    if i == |s| then Some([])
    else
      var rp := DecodeRune(s[i..]);
      if rp.len == 0 then None
      else
        var rest := RunesFrom(s, i + rp.len, j + 1);
        if rest.None? then None else Some([RuneStr(rp.rune as int, i, rp.len, j, 1)] + rest.value)
  }

  /** Fails, with no runes, exactly when the text does not decode. */
  method DecodeRunesInString(s: seq<Byte>) returns (ok: bool, runes: seq<RuneStr>)
    requires |s| < TWO_32
    ensures ok <==> RunesFrom(s, 0, 0).Some?
    ensures runes == if ok then RunesFrom(s, 0, 0).value else []
  {
    hide DecodeRune;
    runes := [];
    var i, j := 0, 0;
    while i < |s|
      invariant i <= |s|
      invariant RunesFrom(s, i, j).Some? <==> RunesFrom(s, 0, 0).Some?
      invariant RunesFrom(s, i, j).Some? ==> RunesFrom(s, 0, 0).value == runes + RunesFrom(s, i, j).value
    {
      var rp := DecodeRune(s[i..]);
      if rp.len == 0 {
        return false, [];
      }
      runes := runes + [RuneStr(rp.rune as int, i, rp.len, j, 1)];
      i, j := i + rp.len, j + 1;
    }
    ok := true;
  }

  /** Rune k starts where rune k - 1 ends, from the first byte to the last. */
  ghost predicate Tiled(runes: seq<RuneStr>, size: nat) {
    && (runes == [] <==> size == 0)
    && (runes != [] ==> runes[0].offset == 0 && runes[|runes| - 1].offset + runes[|runes| - 1].len == size)
    && (forall k :: 0 <= k < |runes| - 1 ==> runes[k + 1].offset == runes[k].offset + runes[k].len)
    && (forall k :: 0 <= k < |runes| ==> 1 <= runes[k].len <= 4 && runes[k].unicodeOffset == k && runes[k].unicodeLength == 1)
  }

  lemma {:induction false} RunesFromTile(s: seq<Byte>, i: nat, j: nat)
    requires i <= |s| && RunesFrom(s, i, j).Some?
    ensures var r := RunesFrom(s, i, j).value;
      && (r == [] <==> i == |s|)
      && (r != [] ==> r[0].offset == i && r[|r| - 1].offset + r[|r| - 1].len == |s|)
      && (forall k :: 0 <= k < |r| - 1 ==> r[k + 1].offset == r[k].offset + r[k].len)
      && (forall k :: 0 <= k < |r| ==> 1 <= r[k].len <= 4 && r[k].unicodeOffset == j + k && r[k].unicodeLength == 1)
    decreases |s| - i
  {
    hide DecodeRune;
    if i < |s| {
      var rp := DecodeRune(s[i..]);
      RunesFromTile(s, i + rp.len, j + 1);
      var r, rest := RunesFrom(s, i, j).value, RunesFrom(s, i + rp.len, j + 1).value;
      assert forall k :: 1 <= k < |r| ==> r[k] == rest[k - 1];
    }
  }

  /** The runes of a text tile it. */
  lemma {:induction false} DecodedTiles(s: seq<Byte>)
    requires RunesFrom(s, 0, 0).Some?
    ensures Tiled(RunesFrom(s, 0, 0).value, |s|)
  {
    RunesFromTile(s, 0, 0);
  }

  // The second decoder and the encoder.

  /** The code points of a text from byte i on. */
  function CodePoints(s: seq<Byte>, i: nat): Option<seq<Bits>>
    requires i <= |s|
    decreases |s| - i
  {
    if i == |s| then Some([])
    else
      var rp := DecodeRune(s[i..]);
      if rp.len == 0 then None
      else
        var rest := CodePoints(s, i + rp.len);
        if rest.None? then None else Some([rp.rune] + rest.value)
  }

  /** The decoder that works on absolute positions: one step. */
  method NextCodePoint(s: seq<Byte>, i0: nat) returns (ok: bool, tmp: Bits, i: nat)
    requires i0 < |s|
    ensures ok <==> DecodeRune(s[i0..]).len > 0
    ensures ok ==> i0 <= i <= |s| && RuneStrLite(tmp, i - i0) == DecodeRune(s[i0..])
  {
    hide Join;
    ok, tmp, i := true, 0, i0;
    if s[i] & 0x80 == 0 {
      tmp := (s[i] & 0x7f) as Bits;
      i := i + 1;
    } else if s[i] <= 0xdf && i + 1 < |s| {
      tmp := (s[i] & 0x1f) as Bits;
      tmp := Join(tmp, s[i + 1]);
      i := i + 2;
    } else if s[i] <= 0xef && i + 2 < |s| {
      tmp := (s[i] & 0x0f) as Bits;
      tmp := Join(tmp, s[i + 1]);
      tmp := Join(tmp, s[i + 2]);
      i := i + 3;
    } else if s[i] <= 0xf7 && i + 3 < |s| {
      tmp := (s[i] & 0x07) as Bits;
      tmp := Join(tmp, s[i + 1]);
      tmp := Join(tmp, s[i + 2]);
      tmp := Join(tmp, s[i + 3]);
      i := i + 4;
    } else {
      ok := false;
    }
  }

  lemma CodePointsStep(s: seq<Byte>, i: nat)
    requires i <= |s|
    ensures CodePoints(s, i) ==
      if i == |s| then Some([])
      else if DecodeRune(s[i..]).len == 0 || CodePoints(s, i + DecodeRune(s[i..]).len).None? then None
      else Some([DecodeRune(s[i..]).rune] + CodePoints(s, i + DecodeRune(s[i..]).len).value)
  {}

  method Utf8ToUnicode32(s: seq<Byte>) returns (ok: bool, vec: seq<Bits>)
    ensures ok <==> CodePoints(s, 0).Some?
    ensures ok ==> vec == CodePoints(s, 0).value
  {
    hide DecodeRune, CodePoints;
    vec, ok := [], true;
    var i := 0;
    while i < |s|
      invariant i <= |s|
      invariant CodePoints(s, i).Some? <==> CodePoints(s, 0).Some?
      invariant CodePoints(s, i).Some? ==> CodePoints(s, 0).value == vec + CodePoints(s, i).value
      decreases |s| - i
    {
      CodePointsStep(s, i);
      var tmp;
      ok, tmp, i := NextCodePoint(s, i);
      if !ok {
        return;
      }
      vec := vec + [tmp];
    }
    CodePointsStep(s, i);
  }

  /** The two decoders succeed on the same texts and find the same runes. */
  lemma {:induction false} DecodersAgree(s: seq<Byte>, i: nat, j: nat)
    requires i <= |s|
    ensures RunesFrom(s, i, j).Some? <==> CodePoints(s, i).Some?
    ensures RunesFrom(s, i, j).Some? ==>
      var runes, vec := RunesFrom(s, i, j).value, CodePoints(s, i).value;
      |runes| == |vec| && forall k :: 0 <= k < |vec| ==> vec[k] as int == runes[k].rune
    decreases |s| - i
  {
    hide DecodeRune;
    if i < |s| && DecodeRune(s[i..]).len > 0 {
      DecodersAgree(s, i + DecodeRune(s[i..]).len, j + 1);
    }
  }

  // The encoder.

  /** A continuation byte with the low six bits of x. */
  function Continuation(x: Bits): Byte {
    ((x & 0x3f) | 0x80) as Byte
  }

  /** A lead byte: the bits of x that the mask keeps, under the mark of the length. */
  function Lead(x: Bits, mask: Bits, mark: Bits): Byte
    requires mask <= 0x1f && mark <= 0xff
  {
    assert (x & mask) | mark <= 0xff by {
      LeadIsByte(x, mask, mark);
    }
    ((x & mask) | mark) as Byte
  }

  lemma LeadIsByte(x: Bits, mask: Bits, mark: Bits)
    requires mask <= 0x1f && mark <= 0xff
    ensures (x & mask) | mark <= 0xff
  {}

  /** The bytes of one code point. The four-byte lead keeps only two bits. */
  function EncodeRune(ui: Bits): seq<Byte> {
    if ui <= 0x7f then
      [(ui & 0x7f) as Byte]
    else if ui <= 0x7ff then
      [Lead(ui >> 6, 0x1f, 0xc0), Continuation(ui)]
    else if ui <= 0xffff then
      [Lead(ui >> 12, 0x0f, 0xe0), Continuation(ui >> 6), Continuation(ui)]
    else
      [Lead(ui >> 18, 0x03, 0xf0), Continuation(ui >> 12), Continuation(ui >> 6), Continuation(ui)]
  }

  function Encode(us: seq<Bits>): seq<Byte> {
    if us == [] then [] else EncodeRune(us[0]) + Encode(us[1..])
  }

  method Unicode32ToUtf8(us: seq<Bits>) returns (res: seq<Byte>)
    ensures res == Encode(us)
  {
    hide EncodeRune;
    res := [];
    assert us[0..] == us;
    for i := 0 to |us|
      invariant res + Encode(us[i..]) == Encode(us)
    {
      assert us[i..][1..] == us[i + 1..];
      res := res + EncodeRune(us[i]);
    }
  }

  /** What decoding gives back for a code point. */
  function Kept(ui: Bits): Bits {
    if ui <= 0xffff then ui else ui & 0xf_ffff
  }

  lemma OneByte(ui: Bits)
    requires ui <= 0x7f
    ensures var a := (ui & 0x7f) as Byte; a & 0x80 == 0 && (a & 0x7f) as Bits == ui
  {}

  lemma TwoBytes(ui: Bits)
    requires 0x7f < ui <= 0x7ff
    ensures var a := Lead(ui >> 6, 0x1f, 0xc0);
      a & 0x80 != 0 && a <= 0xdf && Join((a & 0x1f) as Bits, Continuation(ui)) == ui
  {}

  lemma ThreeBytes(ui: Bits)
    requires 0x7ff < ui <= 0xffff
    ensures var a := Lead(ui >> 12, 0x0f, 0xe0);
      && a & 0x80 != 0 && 0xdf < a <= 0xef
      && Join(Join((a & 0x0f) as Bits, Continuation(ui >> 6)), Continuation(ui)) == ui
  {}

  lemma FourBytes(ui: Bits)
    requires 0xffff < ui
    ensures var a := Lead(ui >> 18, 0x03, 0xf0);
      && a & 0x80 != 0 && 0xef < a <= 0xf7
      && Join(Join(Join((a & 0x07) as Bits, Continuation(ui >> 12)), Continuation(ui >> 6)), Continuation(ui)) == ui & 0xf_ffff
  {}

  lemma DecodeEncodeRune(ui: Bits, after: seq<Byte>)
    ensures DecodeRune(EncodeRune(ui) + after) == RuneStrLite(Kept(ui), |EncodeRune(ui)|)
    ensures |EncodeRune(ui)| > 0
  {
    hide Join, Lead, Continuation;
    if ui <= 0x7f {
      OneByte(ui);
    } else if ui <= 0x7ff {
      TwoBytes(ui);
    } else if ui <= 0xffff {
      ThreeBytes(ui);
    } else {
      FourBytes(ui);
    }
  }

  ghost function KeptAll(us: seq<Bits>): (r: seq<Bits>)
    ensures |r| == |us| && forall k :: 0 <= k < |us| ==> r[k] == Kept(us[k])
  {
    if us == [] then [] else [Kept(us[0])] + KeptAll(us[1..])
  }

  /** Decoding an encoded text always succeeds, and gives back what Kept says. */
  lemma {:induction false} DecodeEncode(before: seq<Byte>, us: seq<Bits>)
    ensures CodePoints(before + Encode(us), |before|) == Some(KeptAll(us))
    decreases |us|
  {
    hide DecodeRune, EncodeRune, Kept;
    if us == [] {
      assert before + Encode(us) == before;
    } else {
      var s, first := before + Encode(us), EncodeRune(us[0]);
      DecodeEncodeRune(us[0], Encode(us[1..]));
      assert s[|before|..] == first + Encode(us[1..]);
      assert s == (before + first) + Encode(us[1..]);
      DecodeEncode(before + first, us[1..]);
    }
  }

  lemma KeptIff(ui: Bits)
    ensures Kept(ui) == ui <==> ui < 0x10_0000
  {}

  /** The round trip is exact if and only if every code point is below 0x100000. */
  lemma {:induction false} RoundTrip(us: seq<Bits>)
    ensures CodePoints(Encode(us), 0) == Some(us) <==> forall k :: 0 <= k < |us| ==> us[k] < 0x10_0000
  {
    hide Kept, CodePoints, Encode;
    DecodeEncode([], us);
    assert [] + Encode(us) == Encode(us);
    forall k | 0 <= k < |us|
      ensures Kept(us[k]) == us[k] <==> us[k] < 0x10_0000
    {
      KeptIff(us[k]);
    }
    if forall k :: 0 <= k < |us| ==> us[k] < 0x10_0000 {
      assert KeptAll(us) == us;
    }
  }
}
