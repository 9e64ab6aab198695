/** The MD4 digest computed a piece at a time, as RFC 1320 defines it for the whole message.
    The block transform is any function of the state and a block. */
module Md4 {
  import opened Bytes

  const WORD := 0x1_0000_0000
  const BLOCK := 64

  type State = s: seq<uint32> | |s| == 4 witness [0, 0, 0, 0]
  type Transform = (State, seq<byte>) -> State

  /** Section 3.3: the initial state. */
  const INITIAL: State := [0x67452301, 0xefcdab89, 0x98badcfe, 0x10325476]

  // ---------- RFC 1320, for a whole message ----------

  /** Section 3.1: a one bit, then zeros up to 56 modulo 64 bytes. */
  function PadLength(n: nat): (k: nat)
    ensures 1 <= k <= BLOCK && (n + k) % BLOCK == 56
  {
    if n % BLOCK < 56 then 56 - n % BLOCK else 120 - n % BLOCK
  }

  function Padding(k: nat): seq<byte>
    requires 1 <= k
  {
    [0x80] + seq(k - 1, _ => 0)
  }

  /** Section 3.2: the length in bits modulo 2^64, low word first. */
  function LengthBytes(n: nat): seq<byte> {
    var bits := 8 * n % (WORD * WORD);
    Le32(bits % WORD) + Le32(bits / WORD)
  }

  function Padded(m: seq<byte>): seq<byte> {
    m + Padding(PadLength(|m|)) + LengthBytes(|m|)
  }

  /** Section 3.4: the blocks in order. */
  function Absorb(t: Transform, m: seq<byte>): State
    requires |m| % BLOCK == 0
  {
    if m == [] then INITIAL else t(Absorb(t, m[..|m| - BLOCK]), m[|m| - BLOCK..])
  }

  function EncodeWords(ws: seq<uint32>): seq<byte> {
    if ws == [] then [] else EncodeWords(ws[..|ws| - 1]) + Le32(ws[|ws| - 1])
  }

  lemma {:induction false} EncodeWordsLength(ws: seq<uint32>)
    ensures |EncodeWords(ws)| == 4 * |ws|
  {
    if ws != [] {
      EncodeWordsLength(ws[..|ws| - 1]);
    }
  }

  lemma PaddedLength(m: seq<byte>)
    ensures |Padded(m)| == |m| + PadLength(|m|) + 8
    ensures |Padded(m)| % BLOCK == 0
  {
    LengthBytesLength(|m|);
    var k := PadLength(|m|);
    PaddingLength(k);
    PlusEight(|m| + k);
    hide LengthBytes, Padding, PadLength;
    assert |Padded(m)| == |m| + k + 8;
  }

  lemma PlusEight(n: nat)
    requires n % BLOCK == 56
    ensures (n + 8) % BLOCK == 0
  {
  }

  lemma PaddingLength(k: nat)
    requires 1 <= k
    ensures |Padding(k)| == k
  {
  }

  lemma LengthBytesLength(n: nat)
    ensures |LengthBytes(n)| == 8
  {
    hide Le32;
    Le32Length(8 * n % (WORD * WORD) % WORD);
    Le32Length(8 * n % (WORD * WORD) / WORD);
  }

  /** Section 3.5. */
  function Digest(t: Transform, m: seq<byte>): seq<byte> {
    PaddedLength(m);
    EncodeWords(Absorb(t, Padded(m)))
  }

  /** Section 3.3 gives the initial state as bytes, low order first. */
  lemma InitialBytes()
    ensures EncodeWords(INITIAL) == [0x01, 0x23, 0x45, 0x67, 0x89, 0xab, 0xcd, 0xef,
                                     0xfe, 0xdc, 0xba, 0x98, 0x76, 0x54, 0x32, 0x10]
  {
    assert Le32(0x67452301) == [0x01, 0x23, 0x45, 0x67] && Le32(0xefcdab89) == [0x89, 0xab, 0xcd, 0xef];
    assert Le32(0x98badcfe) == [0xfe, 0xdc, 0xba, 0x98] && Le32(0x10325476) == [0x76, 0x54, 0x32, 0x10];
    hide Le32;
    FourWords(0x67452301, 0xefcdab89, 0x98badcfe, 0x10325476);
  }

  lemma FourWords(a: uint32, b: uint32, c: uint32, d: uint32)
    ensures EncodeWords([a, b, c, d]) == Le32(a) + Le32(b) + Le32(c) + Le32(d)
  {
    hide Le32;
    var ws: seq<uint32> := [a, b, c, d];
    assert ws[..3] == [a, b, c] && [a, b, c][..2] == [a, b] && [a, b][..1] == [a] && [a][..0] == [];
    assert EncodeWords([a]) == Le32(a);
    assert EncodeWords([a, b]) == Le32(a) + Le32(b);
    assert EncodeWords([a, b, c]) == Le32(a) + Le32(b) + Le32(c);
  }

  lemma LittleEndianStep(s: seq<byte>, i: nat)
    requires i < |s|
    ensures LittleEndian(s[i..]) == s[i] as int + 0x100 * LittleEndian(s[i + 1..])
  {
    assert s[i..][1..] == s[i + 1..];
  }

  lemma FourBytes(s: seq<byte>)
    requires |s| >= 4
    ensures LittleEndian(s) == Long(s[0], s[1], s[2], s[3]) + WORD * LittleEndian(s[4..])
  {
    assert s[0..] == s;
    hide LittleEndian;
    LittleEndianStep(s, 0);
    LittleEndianStep(s, 1);
    LittleEndianStep(s, 2);
    LittleEndianStep(s, 3);
  }

  lemma LittleEndianOfBoth(a: seq<byte>, b: seq<byte>)
    requires |a| == 4
    ensures LittleEndian(a + b) == LittleEndian(a) + WORD * LittleEndian(b)
  {
    FourBytes(a + b);
    FourBytes(a);
    assert (a + b)[4..] == b && a[4..] == [] && LittleEndian([]) == 0;
  }

  /** A padded message is the message, one bit, zeros to 56 modulo 64 bytes, and the number of bits of the message. */
  lemma PaddedLayout(m: seq<byte>)
    ensures var p := Padded(m);
            && |p| % BLOCK == 0 && |m| + 9 <= |p| <= |m| + BLOCK + 8
            && p[..|m|] == m && p[|m|] == 0x80
            && (forall i | |m| < i < |p| - 8 :: p[i] == 0)
            && LittleEndian(p[|p| - 8..]) == 8 * |m| % (WORD * WORD)
  {
    PaddedLength(m);
    LengthBytesLength(|m|);
    var k := PadLength(|m|);
    PaddingLength(k);
    var p, pad, length := Padded(m), Padding(k), LengthBytes(|m|);
    forall i | |m| < i < |p| - 8 ensures p[i] == 0 {
      assert p[i] == pad[i - |m|];
    }
    assert p[|m|] == pad[0];
    assert p[|p| - 8..] == length;
    LengthIsBits(|m|);
  }

  lemma LengthIsBits(n: nat)
    ensures LittleEndian(LengthBytes(n)) == 8 * n % (WORD * WORD)
  {
    hide LittleEndian, Le32;
    var bits := 8 * n % (WORD * WORD);
    Le32Length(bits % WORD);
    Le32IsLittleEndian(bits % WORD);
    Le32IsLittleEndian(bits / WORD);
    LittleEndianOfBoth(Le32(bits % WORD), Le32(bits / WORD));
  }

  // ---------- Words and bytes ----------

  /** Encode */
  method Encode(input: seq<uint32>, len: nat) returns (output: seq<byte>)
    requires len % 4 == 0 && len / 4 <= |input|
    ensures output == EncodeWords(input[..len / 4])
  {
    output := [];
    var i, j := 0, 0;
    while j < len
      invariant j == 4 * i && j <= len && output == EncodeWords(input[..i])
    {
      output := output + Le32(input[i]);
      assert input[..i + 1][..i] == input[..i];
      i, j := i + 1, j + 4;
    }
  }

  /** Decode, which reads back what Encode writes. */
  method Decode(input: seq<byte>, len: nat) returns (output: seq<uint32>)
    requires len % 4 == 0 && len <= |input|
    ensures |output| == len / 4 && EncodeWords(output) == input[..len]
  {
    output := [];
    var i, j := 0, 0;
    while j < len
      invariant j == 4 * i && j <= len && |output| == i && EncodeWords(output) == input[..j]
    {
      var w := Long(input[j], input[j + 1], input[j + 2], input[j + 3]);
      Le32OfLong(input[j], input[j + 1], input[j + 2], input[j + 3]);
      assert (output + [w])[..i] == output;
      assert input[..j + 4] == input[..j] + [input[j], input[j + 1], input[j + 2], input[j + 3]];
      output := output + [w];
      i, j := i + 1, j + 4;
    }
  }

  // ---------- Counting ----------

  /** The byte count within a block, recovered from the low word of the bit count. */
  lemma IndexFromCount(n: nat)
    ensures 8 * n % WORD / 8 % BLOCK == n % BLOCK
  {
    var q, r := n / 0x2000_0000, n % 0x2000_0000;
    assert 8 * n == WORD * q + 8 * r;
    RemainderWord(q, 8 * r);
    RemainderBlock(0x80_0000 * q, r);
  }

  lemma RemainderWord(q: int, r: nat)
    requires r < WORD
    ensures (WORD * q + r) % WORD == r
  {
  }

  lemma RemainderBlock(q: int, r: int)
    ensures (BLOCK * q + r) % BLOCK == r % BLOCK
  {
  }

  lemma RemainderLong(q: int, r: nat)
    requires r < WORD * WORD
    ensures (WORD * WORD * q + r) % (WORD * WORD) == r
  {
  }

  lemma LowWord(n: nat)
    ensures 8 * n % (WORD * WORD) % WORD == 8 * n % WORD
  {
    var q := 8 * n / (WORD * WORD);
    var r := 8 * n % (WORD * WORD);
    var low, high := r % WORD, r / WORD;
    assert 8 * n == WORD * (WORD * q + high) + low;
    RemainderWord(WORD * q + high, low);
  }

  /** The two-word addition of MD4Update. */
  function Counted(c0: uint32, c1: uint32, len: uint32): (uint32, uint32) {
    var low := 8 * len % WORD;
    var sum := (c0 + low) % WORD;
    var carried := if sum < low then (c1 + 1) % WORD else c1;
    (sum, (carried + len / 0x2000_0000) % WORD)
  }

  lemma CountedIsSum(n: nat, c0: uint32, c1: uint32, len: uint32)
    requires c0 + WORD * c1 == 8 * n % (WORD * WORD)
    ensures var (d0, d1) := Counted(c0, c1, len);
            d0 + WORD * d1 == 8 * (n + len) % (WORD * WORD)
  {
    var low, high := 8 * len % WORD, len / 0x2000_0000;
    SplitLength(len);
    var carry := if c0 + low >= WORD then 1 else 0;
    CarryOut(c0, low);
    CarryIn(c1, carry, high);
    var total := c1 + carry + high;
    var d0, d1, q, p := c0 + low - WORD * carry, total % WORD, total / WORD, 8 * n / (WORD * WORD);
    assert Counted(c0, c1, len) == (d0, d1);
    assert total == WORD * q + d1;
    hide Counted;
    assert d0 + WORD * d1 == (c0 + WORD * c1) + 8 * len - WORD * WORD * q;
    assert 8 * (n + len) == WORD * WORD * (p + q) + (d0 + WORD * d1);
    RemainderLong(p + q, d0 + WORD * d1);
  }

  lemma SplitLength(len: uint32)
    ensures 8 * len == 8 * len % WORD + WORD * (len / 0x2000_0000)
  {
  }

  lemma CarryOut(c0: uint32, low: uint32)
    ensures (c0 + low) % WORD == (if c0 + low >= WORD then c0 + low - WORD else c0 + low)
    ensures (c0 + low) % WORD < low <==> c0 + low >= WORD
  {
  }

  lemma CarryIn(c1: uint32, carry: nat, high: nat)
    requires carry <= 1
    ensures ((if carry == 1 then (c1 + 1) % WORD else c1) + high) % WORD == (c1 + carry + high) % WORD
  {
  }

  // ---------- MD4Init, MD4Update, MD4Final ----------

  function Whole(n: nat): (k: nat)
    ensures k <= n && k % BLOCK == 0
  {
    n - n % BLOCK
  }

  lemma {:induction false} AbsorbNext(t: Transform, m: seq<byte>, block: seq<byte>)
    requires |m| % BLOCK == 0 && |block| == BLOCK
    ensures |m + block| % BLOCK == 0 && Absorb(t, m + block) == t(Absorb(t, m), block)
  {
    assert (m + block)[..|m|] == m && (m + block)[|m|..] == block;
  }

  /** After n bytes, an input of len bytes makes the 32-bit loop index of MD4Update wrap around. */
  predicate Wraps(n: nat, len: uint32) {
    len >= BLOCK - n % BLOCK && len - (n + len) % BLOCK + 63 >= WORD
  }

  /** The index starts where the buffer is full and moves a block at a time. It wraps exactly if at one of its values
      within the input the test adds up to more than 32 bits, and then the test holds with less than a block left. */
  lemma WrapsExactlyWhen(n: nat, len: uint32)
    ensures Wraps(n, len) <==>
              exists k: nat :: BLOCK - n % BLOCK + BLOCK * k <= len && BLOCK - n % BLOCK + BLOCK * k + 63 >= WORD
    ensures Wraps(n, len) ==>
              var i := len - (n + len) % BLOCK;
              (i + 63) % WORD < len < i + BLOCK
  {
    var start := BLOCK - n % BLOCK;
    var i := len - (n + len) % BLOCK;
    if len >= start {
      LastIndex(n, start, len);
      var k := (i - start) / BLOCK;
      assert start + BLOCK * k == i;
    }
    forall k: nat | start + BLOCK * k <= len ensures start + BLOCK * k <= i {
      LastIndex(n, start, len);
    }
  }

  lemma StaysBelowWord(n: nat, len: uint32)
    requires !Wraps(n, len) && len >= BLOCK - n % BLOCK
    ensures len - (len - (BLOCK - n % BLOCK)) % BLOCK + 63 < WORD
  {
    LastIndex(n, BLOCK - n % BLOCK, len);
  }

  /** While the index is within the input, the test of the loop does not wrap. */
  lemma TestStaysBelow(i: nat, start: nat, len: uint32)
    requires start <= i <= len && (i - start) % BLOCK == 0 && len - (len - start) % BLOCK + 63 < WORD
    ensures (i + 63) % WORD == i + 63
  {
    var k, r := (i - start) / BLOCK, (len - start) % BLOCK;
    assert len - start == BLOCK * ((len - start) / BLOCK) + r;
    assert i - start == BLOCK * k && i <= len - r;
  }

  lemma LastIndex(n: nat, start: nat, len: nat)
    requires start == BLOCK - n % BLOCK <= len
    ensures var i := len - (n + len) % BLOCK;
            start <= i <= len < i + BLOCK && (i - start) % BLOCK == 0
  {
  }

  lemma Regrouped(m: seq<byte>, input: seq<byte>, partLen: nat, i: nat)
    requires partLen <= i <= |input|
    ensures m[..Whole(|m|)] + (m[Whole(|m|)..] + input[..partLen]) + input[partLen..i] == m + input[..i]
  {
  }

  lemma Finished(all: seq<byte>, done: seq<byte>, rest: seq<byte>, m: seq<byte>, input: seq<byte>, kept: seq<byte>,
                 i: nat)
    requires all == m + input && i <= |input| && rest == kept + input[i..]
    requires done + kept == m + input[..i]
    requires |done| % BLOCK == 0 && |rest| < BLOCK
    ensures Whole(|all|) == |done| && all[..|done|] == done && all[|done|..] == rest && |all| % BLOCK == |rest|
  {
    assert all == done + rest by {
      assert m + input == (m + input[..i]) + input[i..];
      assert (done + kept) + input[i..] == done + (kept + input[i..]);
    }
    WholeOf(|done|, |rest|);
  }

  lemma LowOfSum(c0: uint32, c1: uint32, n: nat)
    requires c0 + WORD * c1 == n
    ensures n % WORD == c0
  {
  }

  lemma WholeOf(a: nat, b: nat)
    requires a % BLOCK == 0 && b < BLOCK
    ensures Whole(a + b) == a && (a + b) % BLOCK == b
  {
  }

  class Context {
    const transform: Transform
    var state: State
    var count0: uint32
    var count1: uint32
    const buffer: array<byte>

    /** The context after the message m: its whole blocks absorbed, the rest buffered, its length in bits counted. */
    ghost predicate Represents(m: seq<byte>)
      reads this, buffer
    {
      && buffer.Length == BLOCK
      && count0 + WORD * count1 == 8 * |m| % (WORD * WORD)
      && state == Absorb(transform, m[..Whole(|m|)])
      && buffer[..|m| % BLOCK] == m[Whole(|m|)..]
    }

    /** MD4Init */
    constructor (transform: Transform)
      ensures Represents([]) && fresh(buffer) && this.transform == transform
    {
      this.transform := transform;
      state, count0, count1 := INITIAL, 0, 0;
      buffer := new byte[BLOCK];
    }

    method CopyIn(at: nat, bytes: seq<byte>)
      requires at + |bytes| <= buffer.Length
      modifies buffer
      ensures buffer[..at + |bytes|] == old(buffer[..at]) + bytes
    {
      forall k | 0 <= k < |bytes| {
        buffer[at + k] := bytes[k];
      }
    }

    /** The loop of MD4Update over the whole blocks left in the input. */
    method AbsorbBlocks(input: seq<byte>, start: nat, ghost done: seq<byte>) returns (i: nat)
      requires start <= |input| < WORD && |input| - (|input| - start) % BLOCK + 63 < WORD
      requires |done| % BLOCK == 0 && state == Absorb(transform, done)
      modifies this`state
      ensures start <= i <= |input| < i + BLOCK
      ensures |done + input[start..i]| % BLOCK == 0 && state == Absorb(transform, done + input[start..i])
    {
      hide Absorb;
      i := start;
      TestStaysBelow(i, start, |input|);
      ghost var all := done;
      while (i + 63) % WORD < |input|
        invariant start <= i <= |input| && (i - start) % BLOCK == 0 && |all| % BLOCK == 0
        invariant (i + 63) % WORD == i + 63
        decreases |input| - i
        invariant all == done + input[start..i] && state == Absorb(transform, all)
      {
        var block := input[i..i + BLOCK];
        AbsorbNext(transform, all, block);
        state := transform(state, block);
        all := all + block;
        assert input[start..i] + block == input[start..i + BLOCK];
        i := i + BLOCK;
        TestStaysBelow(i, start, |input|);
      }
    }

    /** The counting done by MD4Update; the index is where the next byte goes in the buffer. */
    method CountIn(len: uint32, ghost n: nat) returns (index: nat)
      requires count0 + WORD * count1 == 8 * n % (WORD * WORD)
      modifies this`count0, this`count1
      ensures count0 + WORD * count1 == 8 * (n + len) % (WORD * WORD)
      ensures index == n % BLOCK
    {
      LowWord(n);
      IndexFromCount(n);
      LowOfSum(count0, count1, 8 * n % (WORD * WORD));
      CountedIsSum(n, count0, count1, len);
      hide Counted;
      index := count0 / 8 % BLOCK;
      var counts := Counted(count0, count1, len);
      count0, count1 := counts.0, counts.1;
    }

    /** MD4Update, unless its loop index wraps around. */
    method Update(input: seq<byte>, ghost m: seq<byte>)
      requires Represents(m) && |input| < WORD && !Wraps(|m|, |input|)
      modifies this, buffer
      ensures Represents(m + input)
    {
      hide Absorb, Wraps;
      ghost var done, kept := m[..Whole(|m|)], m[Whole(|m|)..];
      var index := CountIn(|input|, |m|);
      assert buffer[..index] == kept;
      var partLen := BLOCK - index;
      var i := 0;
      if |input| >= partLen {
        CopyIn(index, input[..partLen]);
        var block := buffer[..BLOCK];
        AbsorbNext(transform, done, block);
        state := transform(state, block);
        done := done + block;
        StaysBelowWord(|m|, |input|);
        i := AbsorbBlocks(input, partLen, done);
        done := done + input[partLen..i];
        kept := [];
        Regrouped(m, input, partLen, i);
        index := 0;
      } else {
        assert input[..0] == [];
      }
      assert done + kept == m + input[..i];
      CopyIn(index, input[i..]);
      Finished(m + input, done, kept + input[i..], m, input, kept, i);
    }
  }

  /** MD4Final: what a context that represents the message m makes of it. */
  method Final(context: Context, ghost m: seq<byte>) returns (digest: seq<byte>)
    requires context.Represents(m)
    modifies context, context.buffer
    ensures digest == Digest(context.transform, m)
  {
    hide Absorb, LengthBytes, Padding, EncodeWords;
    var bits := Encode([context.count0, context.count1], 8);
    assert bits == LengthBytes(|m|) by { BitsAreLength(context.count0, context.count1, |m|); }
    LowWord(|m|);
    IndexFromCount(|m|);
    LowOfSum(context.count0, context.count1, 8 * |m| % (WORD * WORD));
    var index := context.count0 / 8 % BLOCK;
    var padLen := if index < 56 then 56 - index else 120 - index;
    PaddingLength(padLen);
    context.Update(Padding(padLen), m);
    LengthBytesLength(|m|);
    context.Update(bits, m + Padding(padLen));
    PaddedLength(m);
    ghost var all := m + Padding(padLen) + bits;
    assert all == Padded(m) && all[..|all|] == all;
    digest := Encode(context.state, 16);
    assert context.state[..4] == context.state;
    for i := 0 to context.buffer.Length {
      context.buffer[i] := 0;
    }
    context.count0, context.count1, context.state := 0, 0, [0, 0, 0, 0];
  }

  lemma BitsAreLength(c0: uint32, c1: uint32, n: nat)
    requires c0 + WORD * c1 == 8 * n % (WORD * WORD)
    ensures EncodeWords([c0, c1][..8 / 4]) == LengthBytes(n)
  {
    hide Le32;
    var ws: seq<uint32> := [c0, c1];
    assert ws[..2] == ws && ws[..1] == [c0] && [c0][..0] == [];
    assert EncodeWords([c0]) == Le32(c0);
    WordsOfSum(c0, c1, 8 * n % (WORD * WORD));
  }

  lemma WordsOfSum(c0: uint32, c1: uint32, n: nat)
    requires c0 + WORD * c1 == n
    ensures n % WORD == c0 && n / WORD == c1
  {
  }

  lemma ConcatSteps(chunks: seq<seq<byte>>)
    ensures Concat(chunks[..0]) == []
    ensures forall i | 0 <= i < |chunks| :: Concat(chunks[..i + 1]) == Concat(chunks[..i]) + chunks[i]
  {
    forall i | 0 <= i < |chunks| ensures Concat(chunks[..i + 1]) == Concat(chunks[..i]) + chunks[i] {
      assert chunks[..i + 1][..i] == chunks[..i];
    }
  }

  /** However a message is cut into pieces for MD4Update, MD4Final gives the RFC's digest of the whole. */
  method DigestOfChunks(transform: Transform, chunks: seq<seq<byte>>) returns (digest: seq<byte>)
    requires forall i | 0 <= i < |chunks| :: |chunks[i]| < WORD && !Wraps(|Concat(chunks[..i])|, |chunks[i]|)
    ensures digest == Digest(transform, Concat(chunks))
  {
    hide Digest, Absorb, Concat, Context.Represents;
    var context := new Context(transform);
    ghost var m: seq<byte> := [];
    ConcatSteps(chunks);
    for i := 0 to |chunks|
      invariant fresh(context) && fresh(context.buffer) && context.transform == transform
      invariant context.Represents(m) && m == Concat(chunks[..i])
    {
      context.Update(chunks[i], m);
      m := m + chunks[i];
    }
    assert chunks[..|chunks|] == chunks;
    digest := Final(context, m);
  }
}
