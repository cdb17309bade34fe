/**
 MD5 fed in pieces, against the digest of the whole message as RFC 1321 defines it in
 sections 3.1 (padding), 3.2 (length) and 3.4 (sixteen-word blocks). The four rounds of a
 block are a parameter.
 */
module Md5 {
  import opened Widths

  type Byte = x: int | 0 <= x < 256
  type Word = x: int | 0 <= x < TWO_32

  // The four registers of the digest.
  type State = s: seq<Word> | |s| == 4 witness [0, 0, 0, 0]

  // What the rounds make of the registers and the sixteen words of a block.
  type Rounds = (State, seq<Word>) -> State

  const INITIAL: State := [0x67452301, 0xefcdab89, 0x98badcfe, 0x10325476]

  // Words and bytes, low byte first.

  function LittleEndian(value: nat, bytes: nat): (r: seq<Byte>)
    ensures |r| == bytes
  {
    if bytes == 0 then [] else [value % 256] + LittleEndian(value / 256, bytes - 1)
  }

  function WordOf(b: seq<Byte>): Word
    requires |b| == 4
  {
    b[0] as int + 0x100 * b[1] as int + 0x1_0000 * b[2] as int + 0x100_0000 * b[3] as int
  }

  function EncodeWords(words: seq<Word>): (r: seq<Byte>)
    ensures |r| == 4 * |words|
  {
    if words == [] then [] else EncodeWords(words[..|words| - 1]) + LittleEndian(words[|words| - 1], 4)
  }

  function DecodeWords(bytes: seq<Byte>): (r: seq<Word>)
    requires |bytes| % 4 == 0
    ensures |r| == |bytes| / 4
  {
    if bytes == [] then [] else DecodeWords(bytes[..|bytes| - 4]) + [WordOf(bytes[|bytes| - 4..])]
  }

  lemma {:induction false} FourBytes(w: nat)
    ensures LittleEndian(w, 4) == [w % 256, w / 256 % 256, w / 256 / 256 % 256, w / 256 / 256 / 256 % 256]
  {
    assert LittleEndian(w / 256 / 256 / 256, 1) == [w / 256 / 256 / 256 % 256] + LittleEndian(w / 256 / 256 / 256 / 256, 0);
    assert LittleEndian(w / 256 / 256, 2) == [w / 256 / 256 % 256] + LittleEndian(w / 256 / 256 / 256, 1);
    assert LittleEndian(w / 256, 3) == [w / 256 % 256] + LittleEndian(w / 256 / 256, 2);
  }

  lemma {:induction false} ShiftedBytes(w: nat)
    ensures LittleEndian(w, 4) == [w % 256, w / 0x100 % 256, w / 0x1_0000 % 256, w / 0x100_0000 % 256]
  {
    FourBytes(w);
    assert w / 256 / 256 == w / 0x1_0000 && w / 256 / 256 / 256 == w / 0x100_0000;
  }

  lemma {:induction false} WordOfBytes(w: Word)
    ensures WordOf(LittleEndian(w, 4)) == w
  {
    FourBytes(w);
  }

  lemma BytesOfWord(b: seq<Byte>)
    requires |b| == 4
    ensures LittleEndian(WordOf(b), 4) == b
  {
    var w := WordOf(b);
    FourBytes(w);
    var b1: int, b2: int, b3: int := b[1], b[2], b[3];
    assert w / 256 == b1 + 256 * b2 + 0x1_0000 * b3;
    assert w / 256 / 256 == b2 + 256 * b3;
  }

  lemma {:induction false} EncodeStep(words: seq<Word>, w: Word)
    ensures EncodeWords(words + [w]) == EncodeWords(words) + LittleEndian(w, 4)
  {
    assert (words + [w])[..|words|] == words;
  }

  lemma {:induction false} DecodeStep(bytes: seq<Byte>, last: seq<Byte>)
    requires |bytes| % 4 == 0 && |last| == 4
    ensures DecodeWords(bytes + last) == DecodeWords(bytes) + [WordOf(last)]
  {
    assert (bytes + last)[..|bytes|] == bytes && (bytes + last)[|bytes|..] == last;
  }

  /** Decoding undoes encoding. */
  lemma {:induction false} DecodeEncode(words: seq<Word>)
    ensures DecodeWords(EncodeWords(words)) == words
  {
    if words != [] {
      hide EncodeWords, DecodeWords, LittleEndian, WordOf;
      var front, w := words[..|words| - 1], words[|words| - 1];
      assert words == front + [w];
      DecodeEncode(front);
      EncodeStep(front, w);
      DecodeStep(EncodeWords(front), LittleEndian(w, 4));
      WordOfBytes(w);
    }
  }

  /** Encoding undoes decoding. */
  lemma {:induction false} EncodeDecode(bytes: seq<Byte>)
    requires |bytes| % 4 == 0
    ensures EncodeWords(DecodeWords(bytes)) == bytes
  {
    if bytes != [] {
      hide EncodeWords, DecodeWords, LittleEndian, WordOf;
      var n := |bytes| - 4;
      var front, last := bytes[..n], bytes[n..];
      assert bytes == front + last;
      EncodeDecode(front);
      DecodeStep(front, last);
      EncodeStep(DecodeWords(front), WordOf(last));
      BytesOfWord(last);
    }
  }

  method PutWord(output: array<Byte>, j: nat, w: Word)
    requires j + 4 <= output.Length
    modifies output
    ensures output[..j] == old(output[..j]) && output[j..j + 4] == LittleEndian(w, 4)
    ensures output[j + 4..] == old(output[j + 4..])
  {
    output[j] := w % 256;
    output[j + 1] := w / 0x100 % 256;
    output[j + 2] := w / 0x1_0000 % 256;
    output[j + 3] := w / 0x100_0000 % 256;
    ShiftedBytes(w);
  }

  method Encode(output: array<Byte>, input: seq<Word>, len: nat)
    requires len % 4 == 0 && len <= output.Length && len <= 4 * |input|
    modifies output
    ensures output[..len] == EncodeWords(input[..len / 4])
    ensures output[len..] == old(output[len..])
  {
    hide LittleEndian, EncodeWords;
    var i, j := 0, 0;
    ghost var n := len / 4;
    NoBytes();
    while j < len
      invariant j == 4 * i <= len == 4 * n
      invariant output[..j] == EncodeWords(input[..i])
      invariant output[j..] == old(output[j..])
    {
      ghost var rest := output[j..];
      assert rest[4..] == output[j + 4..] && old(output[j..])[4..] == old(output[j + 4..]);
      PutWord(output, j, input[i]);
      OneWordMore(input, i);
      assert output[..j + 4] == output[..j] + output[j..j + 4];
      i, j := i + 1, j + 4;
    }
  }

  lemma NoBytes()
    ensures EncodeWords([]) == []
  {}

  lemma OneWordMore(input: seq<Word>, i: nat)
    requires i < |input|
    ensures EncodeWords(input[..i + 1]) == EncodeWords(input[..i]) + LittleEndian(input[i], 4)
  {
    EncodeStep(input[..i], input[i]);
    assert input[..i + 1] == input[..i] + [input[i]];
  }

  method Decode(input: seq<Byte>) returns (output: seq<Word>)
    requires |input| % 4 == 0
    ensures output == DecodeWords(input)
  {
    hide DecodeWords;
    output := [];
    NoWords();
    ghost var n := |input| / 4;
    var i, j := 0, 0;
    while j < |input|
      invariant j == 4 * i <= |input| == 4 * n && output == DecodeWords(input[..j])
    {
      var word := input[j] as int + 0x100 * input[j + 1] as int + 0x1_0000 * input[j + 2] as int
                  + 0x100_0000 * input[j + 3] as int;
      OneMoreWord(input, i);
      output := output + [word];
      i, j := i + 1, j + 4;
    }
    assert input[..j] == input;
  }

  lemma NoWords()
    ensures DecodeWords([]) == []
  {}

  lemma OneMoreWord(input: seq<Byte>, i: nat)
    requires 4 * i + 4 <= |input|
    ensures DecodeWords(input[..4 * i + 4]) == DecodeWords(input[..4 * i]) + [WordOf(input[4 * i..4 * i + 4])]
  {
    hide DecodeWords;
    DecodeStep(input[..4 * i], input[4 * i..4 * i + 4]);
    assert input[..4 * i + 4] == input[..4 * i] + input[4 * i..4 * i + 4];
  }

  // The digest of a whole message.

  ghost function Fold(rounds: Rounds, state: State, data: seq<Byte>): State
    requires |data| % 64 == 0
  {
    if data == [] then state
    else rounds(Fold(rounds, state, data[..|data| - 64]), DecodeWords(data[|data| - 64..]))
  }

  /** How much of n bytes is full blocks. */
  ghost function Whole(n: nat): (w: nat)
    ensures w <= n < w + 64 && w % 64 == 0
  {
    SameRest(0, n / 64);
    64 * (n / 64)
  }

  lemma WholeIs(n: nat, w: nat)
    requires w <= n < w + 64 && w % 64 == 0
    ensures Whole(n) == w
  {}

  lemma PadsToBlock(n: nat, p: nat)
    requires (n + p) % 64 == 56
    ensures (n + p + 8) % 64 == 0
  {}

  /** How many bytes pad a message of n bytes: at least one, up to 56 modulo 64. */
  ghost function PadLength(n: nat): (p: nat)
    ensures 1 <= p <= 64 && (n + p) % 64 == 56
  {
    1 + (119 - n % 64) % 64
  }

  lemma PadLengthIsLeast(n: nat, p: nat)
    requires p >= 1 && (n + p) % 64 == 56
    ensures PadLength(n) <= p
  {}

  ghost function Padding(length: nat): (r: seq<Byte>)
    requires length >= 1
    ensures |r| == length
  {
    [0x80] + seq(length - 1, i => 0)
  }

  ghost function Padded(message: seq<Byte>): (r: seq<Byte>)
    ensures |r| % 64 == 0
  {
    PadsToBlock(|message|, PadLength(|message|));
    hide PadLength;
    message + Padding(PadLength(|message|)) + LittleEndian(8 * |message| % TWO_64, 8)
  }

  ghost function Digest(rounds: Rounds, message: seq<Byte>): (r: seq<Byte>)
    ensures |r| == 16
  {
    EncodeWords(Fold(rounds, INITIAL, Padded(message)))
  }

  lemma {:induction false} LittleEndianInjective(v: nat, w: nat, n: nat)
    requires LittleEndian(v, n) == LittleEndian(w, n) && v < Range(n) && w < Range(n)
    ensures v == w
  {
    if n > 0 {
      assert LittleEndian(v, n)[0] == LittleEndian(w, n)[0];
      assert LittleEndian(v, n)[1..] == LittleEndian(w, n)[1..];
      LittleEndianInjective(v / 256, w / 256, n - 1);
    }
  }

  ghost function Range(bytes: nat): nat {
    if bytes == 0 then 1 else 256 * Range(bytes - 1)
  }

  /** Padding keeps messages of fewer than 2^61 bytes apart. */
  lemma PaddedInjective(a: seq<Byte>, b: seq<Byte>)
    requires 8 * |a| < TWO_64 && 8 * |b| < TWO_64
    ensures Padded(a) == Padded(b) ==> a == b
  {
    PaddedEnds(a);
    PaddedEnds(b);
    EightByteRange();
    hide Padded, LittleEndian, Range;
    if Padded(a) == Padded(b) {
      LittleEndianInjective(8 * |a|, 8 * |b|, 8);
    }
  }

  lemma {:induction false} PaddedEnds(a: seq<Byte>)
    requires 8 * |a| < TWO_64
    ensures |Padded(a)| >= |a| + 8 && Padded(a)[..|a|] == a
    ensures Padded(a)[|Padded(a)| - 8..] == LittleEndian(8 * |a|, 8)
  {
    hide LittleEndian, PadLength;
  }

  lemma EightByteRange()
    ensures Range(8) == TWO_64
  {
    assert Range(2) == 0x1_0000;
    assert Range(4) == TWO_32;
    assert Range(6) == 0x1_0000_0000_0000;
  }

  // The counter of bits, in two words.

  /** Addition of words wraps around. */
  function Plus(a: nat, b: nat): Word {
    (a + b) % TWO_32
  }

  /** What n bytes add to the low word: the bits that survive a shift by three. */
  function LowBits(n: nat): Word {
    n * 8 % TWO_32
  }

  function CountLow(count0: Word, n: nat): Word {
    Plus(count0, LowBits(n))
  }

  /** The carry is found by comparing the sum with what was added. */
  function CountHigh(count0: Word, count1: Word, n: nat): Word {
    Plus(if CountLow(count0, n) < LowBits(n) then Plus(count1, 1) else count1, n / 0x2000_0000)
  }

  /** Two words hold the number of bits of n bytes, modulo 2^64. */
  ghost predicate Counts(count0: Word, count1: Word, n: nat) {
    count0 + TWO_32 * count1 == 8 * n % TWO_64
  }

  /** The counters still count after another piece. */
  lemma CountsBits(count0: Word, count1: Word, length: nat, n: nat)
    requires Counts(count0, count1, length) && n < TWO_32
    ensures Counts(CountLow(count0, n), CountHigh(count0, count1, n), length + n)
  {
    var carry := Carries(count0, n);
    var over := Overflows(count0, count1, n, carry);
    hide CountLow, CountHigh;
    var c0, c1 := CountLow(count0, n), CountHigh(count0, count1, n);
    var q := 8 * length / TWO_64;
    assert 8 * length == count0 + TWO_32 * count1 + TWO_64 * q;
    RemainderIs(8 * (length + n), q + over, c0 + TWO_32 * c1);
  }

  lemma {:induction false} Carries(count0: Word, n: nat) returns (carry: nat)
    ensures carry == if CountLow(count0, n) < LowBits(n) then 1 else 0
    ensures count0 + LowBits(n) == CountLow(count0, n) + TWO_32 * carry
  {
    carry := if CountLow(count0, n) < LowBits(n) then 1 else 0;
  }

  lemma {:induction false} Overflows(count0: Word, count1: Word, n: nat, carry: nat) returns (over: nat)
    requires n < TWO_32 && carry == if CountLow(count0, n) < LowBits(n) then 1 else 0
    ensures count1 + carry + n * 8 / TWO_32 == CountHigh(count0, count1, n) + TWO_32 * over
  {
    hide Plus, LowBits;
    var high := n / 0x2000_0000;
    EighthsOfWord(n);
    PlusIs(count1, carry);
    var first := if carry == 1 then Plus(count1, 1) else count1;
    PlusIs(count1, 1);
    PlusIs(first, high);
    over := (if first < count1 + carry then 1 else 0) + (if Plus(first, high) < first + high then 1 else 0);
  }

  lemma EighthsOfWord(n: nat)
    requires n < TWO_32
    ensures n / 0x2000_0000 == n * 8 / TWO_32 < 8
  {}

  lemma PlusIs(a: nat, b: nat)
    requires a < TWO_32 && b < TWO_32
    ensures Plus(a, b) == if a + b < TWO_32 then a + b else a + b - TWO_32
  {}

  lemma RemainderIs(a: nat, q: nat, r: nat)
    requires a == r + TWO_64 * q && r < TWO_64
    ensures a % TWO_64 == r
  {}

  /** The low word tells how much of the last block is there. */
  lemma IndexIs(count0: Word, count1: Word, length: nat)
    requires Counts(count0, count1, length)
    ensures count0 / 8 % 64 == length % 64
  {
    var q := 8 * length / TWO_64;
    assert 8 * length == count0 + TWO_32 * count1 + TWO_64 * q;
    var blocks := 0x80_0000 * count1 + 0x80_0000 * TWO_32 * q;
    EighthIs(count0, length - 64 * blocks);
    SameRest(length - 64 * blocks, blocks);
  }

  lemma EighthIs(bits: nat, bytes: int)
    requires bits == 8 * bytes
    ensures bits / 8 == bytes
  {}

  lemma SameRest(a: nat, blocks: nat)
    ensures (a + 64 * blocks) % 64 == a % 64
  {}

  lemma {:induction false} CountBytes(count0: Word, count1: Word)
    ensures EncodeWords([count0, count1]) == LittleEndian(count0 + TWO_32 * count1, 8)
  {
    hide EncodeWords, LittleEndian;
    var counts := [count0, count1];
    EightBytes(count0 + TWO_32 * count1);
    LowBytes(count0, count1);
    assert counts[..0] == [] && counts[..1] == [count0] && counts[..2] == counts;
    NoBytes();
    OneWordMore(counts, 0);
    OneWordMore(counts, 1);
  }

  lemma {:induction false} EightBytes(v: nat)
    ensures LittleEndian(v, 8) == LittleEndian(v, 4) + LittleEndian(v / TWO_32, 4)
  {
    FourBytes(v);
    assert v / 256 / 256 / 256 / 256 == v / TWO_32;
    assert LittleEndian(v / 256 / 256 / 256, 5) == [v / 256 / 256 / 256 % 256] + LittleEndian(v / TWO_32, 4);
    assert LittleEndian(v / 256 / 256, 6) == [v / 256 / 256 % 256] + LittleEndian(v / 256 / 256 / 256, 5);
    assert LittleEndian(v / 256, 7) == [v / 256 % 256] + LittleEndian(v / 256 / 256, 6);
  }

  lemma LowBytes(low: Word, high: nat)
    ensures LittleEndian(low + TWO_32 * high, 4) == LittleEndian(low, 4)
  {
    hide LittleEndian;
    FourBytes(low);
    FourBytes(low + TWO_32 * high);
    var k := 0x1_0000 * high;
    DropsByte(low, 0x100 * k);
    DropsByte(low / 256, k);
    DropsByte(low / 256 / 256, 0x100 * high);
    DropsByte(low / 256 / 256 / 256, high);
  }

  lemma DropsByte(a: nat, k: nat)
    ensures (a + 256 * k) % 256 == a % 256 && (a + 256 * k) / 256 == a / 256 + k
  {}

  class MD5 {
    const Rounds: Rounds
    var state: State
    var count0: Word
    var count1: Word
    const buffer: array<Byte>
    const digestRaw: array<Byte>

    // Everything given to Update since Init.
    ghost var Input: seq<Byte>

    ghost predicate Shaped()
    {
      buffer.Length == 64 && digestRaw.Length == 16 && buffer != digestRaw
    }

    /**
     The state is the fold over the full blocks, the front of the buffer holds the rest, and
     the counters the number of bits modulo 2^64.
     */
    ghost predicate Valid()
      reads this, buffer
    {
      var n := |Input|;
      && Shaped()
      && state == Fold(Rounds, INITIAL, Input[..Whole(n)])
      && buffer[..n - Whole(n)] == Input[Whole(n)..]
      && Counts(count0, count1, n)
    }

    constructor (rounds: Rounds)
      ensures Valid() && fresh(buffer) && fresh(digestRaw) && Input == [] && Rounds == rounds
    {
      Rounds := rounds;
      buffer := new Byte[64](_ => 0);
      digestRaw := new Byte[16](_ => 0);
      count0, count1 := 0, 0;
      state := INITIAL;
      Input := [];
    }

    method Init()
      requires Shaped()
      modifies this
      ensures Valid() && Input == []
    {
      count0, count1 := 0, 0;
      state := INITIAL;
      Input := [];
    }

    method Copy(index: nat, bytes: seq<Byte>)
      requires Shaped() && index + |bytes| <= 64
      modifies buffer
      ensures buffer[..index] == old(buffer[..index]) && buffer[index..index + |bytes|] == bytes
    {
      forall k | 0 <= k < |bytes| {
        buffer[index + k] := bytes[k];
      }
    }

    method Transform(block: seq<Byte>)
      requires |block| == 64
      modifies this`state
      ensures state == Rounds(old(state), DecodeWords(block))
    {
      var words := Decode(block);
      state := Rounds(state, words);
    }

    /** Adds n bytes to the count of bits. */
    method AddBits(n: nat, ghost length: nat)
      requires Counts(count0, count1, length) && n < TWO_32
      modifies this`count0, this`count1
      ensures Counts(count0, count1, length + n)
    {
      CountsBits(count0, count1, length, n);
      hide Counts;
      hide Plus, LowBits;
      count0 := Plus(count0, LowBits(n));
      if count0 < LowBits(n) {
        count1 := Plus(count1, 1);
      }
      count1 := Plus(count1, n / 0x2000_0000);
    }

    /** Transforms the full blocks of input from i on; done is the place of i in the message. */
    method Blocks(input: seq<Byte>, i0: nat, ghost all: seq<Byte>, ghost done0: nat) returns (i: nat, ghost done: nat)
      requires i0 <= |input| && done0 % 64 == 0 && done0 + (|input| - i0) == |all| && input[i0..] == all[done0..]
      requires i0 <= 64 && |input| + 64 - i0 < TWO_32
      requires state == Fold(Rounds, INITIAL, all[..done0])
      modifies this`state
      ensures i <= |input| && done % 64 == 0 && done <= |all| < done + 64 && input[i..] == all[done..]
      ensures state == Fold(Rounds, INITIAL, all[..done])
    {
      hide Fold, DecodeWords, GoesOn;
      i, done := i0, done0;
      NoWrap(64 - i0, i, |input|);
      while GoesOn(i, |input|)
        invariant i0 <= i <= |input| && done == done0 + (i - i0) && done % 64 == 0 && (GoesOn(i, |input|) <==> i + 63 < |input|)
        invariant input[i..] == all[done..]
        invariant state == Fold(Rounds, INITIAL, all[..done])
        decreases |input| - i
      {
        assert input[i..][..64] == input[i..i + 64] && all[done..][..64] == all[done..done + 64];
        Transform(input[i..i + 64]);
        FoldBlock(Rounds, all, done);
        assert input[i..][64..] == input[i + 64..] && all[done..][64..] == all[done + 64..];
        i, done := i + 64, done + 64;
        NoWrap(64 - i0, i, |input|);
      }
    }

    /** Completes the block in the buffer with the front of input, and transforms it. */
    method CompleteBlock(input: seq<Byte>, index: nat, ghost all: seq<Byte>, ghost done: nat)
      requires Shaped() && index < 64 <= index + |input| && done % 64 == 0
      requires done + index + |input| == |all| && all[..done] + buffer[..index] + input == all
      requires state == Fold(Rounds, INITIAL, all[..done])
      modifies this`state, buffer
      ensures state == Fold(Rounds, INITIAL, all[..done + 64])
    {
      hide Fold, DecodeWords;
      var partLen := 64 - index;
      ghost var first := buffer[..index];
      Copy(index, input[..partLen]);
      assert all[done..] == first + input;
      assert all[done..][..64] == all[done..done + 64] && (first + input)[..64] == first + input[..partLen];
      assert buffer[..] == buffer[..index] + buffer[index..index + partLen] == all[done..done + 64];
      Transform(buffer[..]);
      FoldBlock(Rounds, all, done);
    }

    /** Transforms every block that input completes and keeps the rest in the buffer. */
    method Absorb(input: seq<Byte>, index0: nat, ghost all: seq<Byte>, ghost done0: nat) returns (ghost done: nat)
      requires Shaped() && index0 < 64 && index0 + |input| < TWO_32 && done0 % 64 == 0
      requires done0 + index0 + |input| == |all| && all[..done0] + buffer[..index0] + input == all
      requires state == Fold(Rounds, INITIAL, all[..done0])
      modifies this`state, buffer
      ensures done % 64 == 0 && done <= |all| < done + 64
      ensures state == Fold(Rounds, INITIAL, all[..done]) && buffer[..|all| - done] == all[done..]
    {
      hide Fold;
      var index, i := index0, 0;
      var partLen := 64 - index;
      done := done0;
      assert all[done..] == buffer[..index] + input;
      if |input| >= partLen {
        CompleteBlock(input, index, all, done);
        assert input[partLen..] == all[done + 64..];
        i, done := Blocks(input, partLen, all, done + 64);
        index := 0;
      }
      Copy(index, input[i..]);
      assert buffer[..|all| - done] == buffer[..index] + buffer[index..index + |input[i..]|];
    }

    /** Takes in another piece of the message, of any length the index arithmetic can bear. */
    method Update(input: seq<Byte>)
      requires Valid() && |Input| % 64 + |input| < TWO_32
      modifies this, buffer
      ensures Valid() && Input == old(Input) + input
    {
      hide Fold, Whole, Counts;
      ghost var n, all := |Input|, Input + input;
      IndexIs(count0, count1, n);
      var index := count0 / 8 % 64;
      WholeIs(n, n - index);
      assert all[..n - index] == Input[..n - index];
      assert all[..n - index] + buffer[..index] + input == all;
      AddBits(|input|, n);
      ghost var done := Absorb(input, index, all, n - index);
      WholeIs(|all|, done);
      Input := all;
    }

    /** Pads the message, adds its length and leaves its digest in digestRaw; the context is zeroed. */
    method Final()
      requires Valid()
      modifies this, buffer, digestRaw
      ensures Shaped() && digestRaw[..] == Digest(Rounds, old(Input))
      ensures state == [0, 0, 0, 0] && count0 == count1 == 0 && buffer[..] == seq(64, _ => 0)
    {
      hide Fold, Whole, Counts, PadLength, EncodeWords, LittleEndian;
      ghost var message := Input;
      var bits := new Byte[8];
      Encode(bits, [count0, count1], 8);
      assert bits[..] == bits[..8] && [count0, count1][..2] == [count0, count1];
      LengthBytes(count0, count1, |message|, bits[..]);
      IndexIs(count0, count1, |message|);
      var index := count0 / 8 % 64;
      var padLen := if index < 56 then 56 - index else 120 - index;
      PadLengthIs(|message|, padLen);
      Update(PADDING[..padLen]);
      assert PADDING[..padLen] == Padding(padLen);
      Update(bits[..]);
      assert Input == Padded(message);
      WholeIs(|Input|, |Input|);
      assert Input[..|Input|] == Input;
      Encode(digestRaw, state, 16);
      assert state[..4] == state && digestRaw[..16] == digestRaw[..];
      state, count0, count1 := [0, 0, 0, 0], 0, 0;
      forall k | 0 <= k < 64 {
        buffer[k] := 0;
      }
    }
  }

  const PADDING: seq<Byte> := [0x80] + seq(63, _ => 0)

  lemma PadLengthIs(n: nat, padLen: nat)
    requires padLen == if n % 64 < 56 then 56 - n % 64 else 120 - n % 64
    ensures padLen == PadLength(n)
  {}

  lemma {:induction false} LengthBytes(count0: Word, count1: Word, n: nat, bits: seq<Byte>)
    requires Counts(count0, count1, n) && bits == EncodeWords([count0, count1])
    ensures bits == LittleEndian(8 * n % TWO_64, 8)
  {
    CountBytes(count0, count1);
  }

  /** The test of the block loop is on 32 bits. */
  predicate GoesOn(i: nat, len: nat) {
    (i + 63) % TWO_32 < len
  }

  lemma NoWrap(index: nat, i: nat, len: nat)
    requires (index + i) % 64 == 0 && i <= len && index + len < TWO_32
    ensures i + 63 < TWO_32 && (GoesOn(i, len) <==> i + 63 < len)
  {}

  /** The places of a piece the block loop looks at. */
  ghost predicate LooksAt(index: nat, len: nat, i: nat) {
    64 - index <= i <= len && (index + i) % 64 == 0
  }

  /** The test says what it should about a place. */
  ghost predicate TestIsRight(i: nat, len: nat) {
    GoesOn(i, len) <==> i + 63 < len
  }

  /**
   The test of the block loop is right at every place it looks at exactly when the buffered
   bytes and the piece together stay below 2^32. At the last place it otherwise goes on.
   */
  lemma TestIsSoundIff(index: nat, len: nat)
    requires index < 64 <= index + len && len < TWO_32
    ensures (forall i: nat :: LooksAt(index, len, i) ==> TestIsRight(i, len)) <==> index + len < TWO_32
  {
    if index + len < TWO_32 {
      forall i: nat | LooksAt(index, len, i)
        ensures TestIsRight(i, len)
      {
        NoWrap(index, i, len);
      }
    } else {
      var last := len - (index + len) % 64;
      assert LooksAt(index, len, last) && !TestIsRight(last, len);
    }
  }

  lemma FoldBlock(rounds: Rounds, data: seq<Byte>, i: nat)
    requires i % 64 == 0 && i + 64 <= |data|
    ensures Fold(rounds, INITIAL, data[..i + 64])
         == rounds(Fold(rounds, INITIAL, data[..i]), DecodeWords(data[i..i + 64]))
  {
    var front := data[..i + 64];
    assert front[..i] == data[..i] && front[i..] == data[i..i + 64];
  }

  ghost function Concat(chunks: seq<seq<Byte>>): seq<Byte> {
    if chunks == [] then [] else Concat(chunks[..|chunks| - 1]) + chunks[|chunks| - 1]
  }

  /** A file comes in chunks of at most 1024 bytes; its digest is that of its contents. */
  method DigestFile(rounds: Rounds, chunks: seq<seq<Byte>>) returns (digest: seq<Byte>)
    requires forall k :: 0 <= k < |chunks| ==> |chunks[k]| <= 1024
    ensures digest == Digest(rounds, Concat(chunks))
  {
    var md5 := new MD5(rounds);
    md5.Init();
    for k := 0 to |chunks|
      invariant md5.Valid() && md5.Input == Concat(chunks[..k])
      invariant fresh(md5) && fresh(md5.buffer) && fresh(md5.digestRaw) && md5.Rounds == rounds
    {
      md5.Update(chunks[k]);
      assert chunks[..k + 1][..k] == chunks[..k];
    }
    assert chunks[..|chunks|] == chunks;
    md5.Final();
    digest := md5.digestRaw[..];
  }

  /** A text is taken in at once; the length is an unsigned int, so a longer text is cut. */
  method DigestString(rounds: Rounds, text: seq<Byte>) returns (digest: seq<Byte>)
    ensures digest == Digest(rounds, text[..|text| % TWO_32])
    ensures |text| < TWO_32 ==> digest == Digest(rounds, text)
  {
    hide Digest;
    var md5 := new MD5(rounds);
    md5.Init();
    var len := |text| % TWO_32;
    var input := text[..len];
    assert |text| < TWO_32 ==> input == text;
    md5.Update(input);
    assert md5.Input == input;
    md5.Final();
    digest := md5.digestRaw[..];
  }

  // The digest in the words of the standard, without the functions above.

  /** The number that bytes stand for, the low byte first. */
  ghost function Number(bytes: seq<Byte>): nat {
    if bytes == [] then 0 else bytes[0] as int + 256 * Number(bytes[1..])
  }

  lemma {:induction false} LowByteFirst(v: nat, n: nat)
    requires v < Range(n)
    ensures Number(LittleEndian(v, n)) == v
  {
    if n > 0 {
      LowByteFirst(v / 256, n - 1);
      assert LittleEndian(v, n)[1..] == LittleEndian(v / 256, n - 1);
    }
  }

  lemma {:induction false} FourBytesNumber(b: seq<Byte>)
    requires |b| == 4
    ensures WordOf(b) == Number(b)
  {
    assert Number(b[1..][1..][1..][1..]) == 0;
    assert Number(b[1..][1..][1..]) == b[3] as int;
    assert Number(b[1..][1..]) == b[2] as int + 256 * b[3] as int;
    assert Number(b[1..]) == b[1] as int + 256 * (b[2] as int + 256 * b[3] as int);
  }

  /** Each word of a sequence of bytes is the number of its four bytes. */
  lemma {:induction false} WordsAreNumbers(bytes: seq<Byte>, j: nat)
    requires |bytes| % 4 == 0 && 4 * j + 4 <= |bytes|
    ensures DecodeWords(bytes)[j] == Number(bytes[4 * j..4 * j + 4])
  {
    hide DecodeWords, Number, WordOf;
    var n := |bytes| - 4;
    DecodeStep(bytes[..n], bytes[n..]);
    var front := DecodeWords(bytes[..n]);
    assert bytes == bytes[..n] + bytes[n..];
    assert DecodeWords(bytes) == front + [WordOf(bytes[n..])] && 4 * |front| == n;
    if 4 * j == n {
      FourBytesNumber(bytes[n..]);
      assert bytes[4 * j..4 * j + 4] == bytes[n..];
    } else {
      assert j < |front|;
      WordsAreNumbers(bytes[..n], j);
      assert bytes[..n][4 * j..4 * j + 4] == bytes[4 * j..4 * j + 4];
    }
  }

  lemma {:induction false} EncodedWord(words: seq<Word>, j: nat)
    requires j < |words|
    ensures Number(EncodeWords(words)[4 * j..4 * j + 4]) == words[j]
  {
    DecodeEncode(words);
    WordsAreNumbers(EncodeWords(words), j);
  }

  lemma {:induction false} FourWords(a: Word, b: Word, c: Word, d: Word)
    ensures EncodeWords([a, b, c, d])
         == LittleEndian(a, 4) + LittleEndian(b, 4) + LittleEndian(c, 4) + LittleEndian(d, 4)
  {
    hide EncodeWords, LittleEndian;
    NoBytes();
    EncodeStep([], a);
    EncodeStep([a], b);
    EncodeStep([a, b], c);
    EncodeStep([a, b, c], d);
    assert [] + [a] == [a] && [a] + [b] == [a, b] && [a, b] + [c] == [a, b, c] && [a, b, c] + [d] == [a, b, c, d];
  }

  /** The four registers start as the bytes that section 3.3 of RFC 1321 lists, low byte first. */
  lemma InitialBytes()
    ensures EncodeWords(INITIAL) == [0x01, 0x23, 0x45, 0x67] + [0x89, 0xab, 0xcd, 0xef]
                                    + [0xfe, 0xdc, 0xba, 0x98] + [0x76, 0x54, 0x32, 0x10]
  {
    hide EncodeWords, LittleEndian;
    FourWords(INITIAL[0], INITIAL[1], INITIAL[2], INITIAL[3]);
    ShiftedBytes(INITIAL[0]);
    ShiftedBytes(INITIAL[1]);
    ShiftedBytes(INITIAL[2]);
    ShiftedBytes(INITIAL[3]);
  }

  /**
   Sections 3.1 and 3.2: the message, one bit 1, bits 0 as far as 56 bytes modulo 64 and no
   further than needed, and the length in bits modulo 2^64 in eight bytes, the low one first.
   */
  lemma PaddedIs(message: seq<Byte>)
    ensures var p, n := Padded(message), |message|;
      && |p| % 64 == 0 && n + 9 <= |p| < n + 9 + 64
      && p[..n] == message && p[n] == 0x80
      && (forall k :: n < k < |p| - 8 ==> p[k] == 0)
      && Number(p[|p| - 8..]) == 8 * n % TWO_64
  {
    hide LittleEndian, Number, Range;
    var n, bits := |message|, 8 * |message| % TWO_64;
    var k := PadLength(n);
    var p := Padded(message);
    assert p == message + Padding(k) + LittleEndian(bits, 8);
    assert p[|p| - 8..] == LittleEndian(bits, 8);
    EightByteRange();
    LowByteFirst(bits, 8);
  }

  /** The registers after each block: from the initial ones, by the rounds on the block's sixteen words. */
  ghost predicate IsChain(rounds: Rounds, data: seq<Byte>, states: seq<State>)
    requires |data| % 64 == 0
  {
    && |states| == |data| / 64 + 1 && states[0] == INITIAL
    && forall i :: 0 <= i < |data| / 64 ==> states[i + 1] == rounds(states[i], DecodeWords(data[64 * i..64 * i + 64]))
  }

  lemma {:induction false} FoldChain(rounds: Rounds, data: seq<Byte>) returns (states: seq<State>)
    requires |data| % 64 == 0
    ensures IsChain(rounds, data, states) && states[|data| / 64] == Fold(rounds, INITIAL, data)
  {
    if data == [] {
      states := [INITIAL];
    } else {
      var n := |data| - 64;
      var front := FoldChain(rounds, data[..n]);
      states := front + [Fold(rounds, INITIAL, data)];
      ChainGrows(rounds, data[..n], data[n..], front);
      assert data == data[..n] + data[n..];
    }
  }

  lemma {:induction false} ChainGrows(rounds: Rounds, data: seq<Byte>, block: seq<Byte>, states: seq<State>)
    requires |data| % 64 == 0 && |block| == 64 && IsChain(rounds, data, states)
    ensures IsChain(rounds, data + block, states + [rounds(states[|data| / 64], DecodeWords(block))])
  {
    hide DecodeWords;
    var all, n := data + block, |data| / 64;
    assert |all| / 64 == n + 1;
    forall i | 0 <= i < n
      ensures all[64 * i..64 * i + 64] == data[64 * i..64 * i + 64]
    {
    }
    assert all[64 * n..64 * n + 64] == block;
  }

  /** Section 3.4 and 3.5: the digest is the registers behind the last block of the padded message, low byte first. */
  lemma {:induction false} DigestIs(rounds: Rounds, message: seq<Byte>) returns (states: seq<State>)
    ensures IsChain(rounds, Padded(message), states)
    ensures forall j :: 0 <= j < 4 ==>
      Number(Digest(rounds, message)[4 * j..4 * j + 4]) == states[|Padded(message)| / 64][j]
  {
    hide EncodeWords, Fold, Padded, IsChain, Number;
    states := FoldChain(rounds, Padded(message));
    var last := Fold(rounds, INITIAL, Padded(message));
    forall j | 0 <= j < 4
      ensures Number(Digest(rounds, message)[4 * j..4 * j + 4]) == last[j]
    {
      EncodedWord(last, j);
    }
  }
}
