/** The word and the flag bytes that open each record of a packet of entities. */
module EntityHeaders {
  import opened Bytes
  import opened Options

  const MAX_EDICTS := 2048

  // ---------- Flags ----------

  function FromBits(b: seq<bool>): nat {
    if b == [] then 0 else (if b[0] then 1 else 0) + 2 * FromBits(b[1..])
  }

  function ToBits(x: nat, k: nat): (b: seq<bool>)
    ensures |b| == k
  {
    if k == 0 then [] else [x % 2 == 1] + ToBits(x / 2, k - 1)
  }

  lemma {:induction false} BitsRoundTrip(b: seq<bool>)
    ensures ToBits(FromBits(b), |b|) == b
  {
    if b != [] {
      BitsRoundTrip(b[1..]);
      assert FromBits(b) / 2 == FromBits(b[1..]);
    }
  }

  function Pow2(k: nat): nat {
    if k == 0 then 1 else 2 * Pow2(k - 1)
  }

  lemma {:induction false} FromBitsBound(b: seq<bool>)
    ensures FromBits(b) < Pow2(|b|)
  {
    if b != [] {
      FromBitsBound(b[1..]);
    }
  }

  lemma {:induction false} NoBits(b: seq<bool>)
    ensures FromBits(b) == 0 <==> true !in b
  {
    if b != [] {
      NoBits(b[1..]);
    }
  }

  /** Which fields of an entity changed. */
  datatype Changes = Changes(
    model: bool, frame: bool, colormap: bool, skin: bool, effects: bool,
    origin1: bool, angle1: bool, origin2: bool, angle2: bool, origin3: bool, angle3: bool)

  /** The fields in the order in which they are written. */
  function InOrder(ch: Changes): (b: seq<bool>)
    ensures |b| == 11
  {
    [ch.model, ch.frame, ch.colormap, ch.skin, ch.effects,
     ch.origin1, ch.angle1, ch.origin2, ch.angle2, ch.origin3, ch.angle3]
  }

  /** U_ORIGIN1 to U_MOREBITS, bits 9 to 15 of the first word. */
  function WordBits(ch: Changes, remove: bool, more: bool): (b: seq<bool>)
    ensures |b| == 7
  {
    [ch.origin1, ch.origin2, ch.origin3, ch.angle2, ch.frame, remove, more]
  }

  /** U_ANGLE1 to U_FTE_EVENMORE, the byte that U_MOREBITS announces. */
  function MoreBits(ch: Changes, solid: bool, even: bool): (b: seq<bool>)
    ensures |b| == 8
  {
    [ch.angle1, ch.angle3, ch.model, ch.colormap, ch.skin, ch.effects, solid, even]
  }

  /** U_FTE_MODELDBL, U_FTE_ENTITYDBL and U_FTE_ENTITYDBL2, of the byte that U_FTE_EVENMORE announces. */
  function EvenMoreBits(modelDbl: bool, number: nat): (b: seq<bool>)
    ensures |b| == 8
  {
    [false, false, false, modelDbl, false, number / 512 % 2 == 1, number / 1024 % 2 == 1, false]
  }

  // ---------- Headers ----------

  datatype Header = Header(number: nat, remove: bool, changes: Changes, modelDbl: bool)

  function BitsByte(b: seq<bool>): byte
    requires |b| == 8
  {
    FromBitsBound(b);
    assert Pow2(8) == 256;
    FromBits(b)
  }

  function HeaderWord(low: nat, b: seq<bool>): uint16
    requires |b| == 7
  {
    FromBitsBound(b);
    assert Pow2(7) == 128;
    low % 512 + 512 * FromBits(b)
  }

  predicate NeedsEvenMore(h: Header) {
    h.modelDbl || h.number >= 512
  }

  /** The word and the flag bytes before the fields of a record; low supplies the nine number bits. */
  function HeaderBytes(h: Header, low: nat, solid: bool): (r: seq<byte>)
    ensures 2 <= |r| <= 4
  {
    var more := MoreBits(h.changes, solid, NeedsEvenMore(h));
    Le16(HeaderWord(low, WordBits(h.changes, false, true in more)))
    + (if true in more then [BitsByte(more)] else [])
    + (if NeedsEvenMore(h) then [BitsByte(EvenMoreBits(h.modelDbl, h.number))] else [])
  }

  // ---------- Where the bits are ----------

  const U_ORIGIN1 := 0x200
  const U_ORIGIN2 := 0x400
  const U_ORIGIN3 := 0x800
  const U_ANGLE2 := 0x1000
  const U_FRAME := 0x2000
  const U_REMOVE := 0x4000
  const U_MOREBITS := 0x8000

  const U_ANGLE1 := 0x01
  const U_ANGLE3 := 0x02
  const U_MODEL := 0x04
  const U_COLORMAP := 0x08
  const U_SKIN := 0x10
  const U_EFFECTS := 0x20
  const U_SOLID := 0x40
  const U_FTE_EVENMORE := 0x80

  const U_FTE_MODELDBL := 0x08
  const U_FTE_ENTITYDBL := 0x20
  const U_FTE_ENTITYDBL2 := 0x40

  function Flag(on: bool, weight: nat): nat {
    if on then weight else 0
  }

  /** The flags of the first word. */
  function WordMarks(ch: Changes, more: bool): nat {
    Flag(ch.origin1, U_ORIGIN1) + Flag(ch.origin2, U_ORIGIN2) + Flag(ch.origin3, U_ORIGIN3)
    + Flag(ch.angle2, U_ANGLE2) + Flag(ch.frame, U_FRAME) + Flag(more, U_MOREBITS)
  }

  /** The flags of the byte after it. */
  function Marks(h: Header, solid: bool): nat {
    Flag(h.changes.angle1, U_ANGLE1) + Flag(h.changes.angle3, U_ANGLE3) + Flag(h.changes.model, U_MODEL)
    + Flag(h.changes.colormap, U_COLORMAP) + Flag(h.changes.skin, U_SKIN) + Flag(h.changes.effects, U_EFFECTS)
    + Flag(solid, U_SOLID) + Flag(NeedsEvenMore(h), U_FTE_EVENMORE)
  }

  /** The flags of the third byte: the ninth bit of the model, and the extensions that the number needs. */
  function ExtensionMarks(h: Header): nat {
    Flag(h.modelDbl, U_FTE_MODELDBL) + Flag(512 <= h.number < 1024 || 1536 <= h.number, U_FTE_ENTITYDBL)
    + Flag(1024 <= h.number, U_FTE_ENTITYDBL2)
  }

  lemma FromBitsStep(b: seq<bool>, i: nat)
    requires i < |b|
    ensures FromBits(b[i..]) == Flag(b[i], 1) + 2 * FromBits(b[i + 1..])
  {
    assert b[i..][1..] == b[i + 1..];
  }

  lemma {:induction false} FourBits(b: seq<bool>, i: nat)
    requires i + 4 <= |b|
    ensures FromBits(b[i..]) == Flag(b[i], 1) + Flag(b[i + 1], 2) + Flag(b[i + 2], 4) + Flag(b[i + 3], 8)
                                + 16 * FromBits(b[i + 4..])
  {
    hide FromBits;
    FromBitsStep(b, i);
    FromBitsStep(b, i + 1);
    FromBitsStep(b, i + 2);
    FromBitsStep(b, i + 3);
  }

  lemma EightBits(b: seq<bool>)
    requires |b| == 8
    ensures FromBits(b) == Flag(b[0], 1) + Flag(b[1], 2) + Flag(b[2], 4) + Flag(b[3], 8) + Flag(b[4], 16)
                           + Flag(b[5], 32) + Flag(b[6], 64) + Flag(b[7], 128)
  {
    FourBits(b, 0);
    FourBits(b, 4);
    assert b[0..] == b && b[8..] == [] && FromBits([]) == 0;
    hide FromBits;
  }

  lemma {:induction false} NothingAbove(b: seq<bool>)
    ensures FromBits(b + [false]) == FromBits(b)
    decreases |b|
  {
    if b != [] {
      NothingAbove(b[1..]);
      assert (b + [false])[1..] == b[1..] + [false];
    }
  }

  lemma WordValue(h: Header, low: nat, more: bool)
    ensures HeaderWord(low, WordBits(h.changes, false, more)) == low % 512 + WordMarks(h.changes, more)
  {
    hide FromBits;
    var b := WordBits(h.changes, false, more);
    NothingAbove(b);
    EightBits(b + [false]);
  }

  lemma MarksValue(h: Header, solid: bool)
    ensures var more := MoreBits(h.changes, solid, NeedsEvenMore(h));
            BitsByte(more) == Marks(h, solid) && (true in more <==> Marks(h, solid) > 0)
  {
    hide FromBits, NeedsEvenMore, Marks;
    NoBits(MoreBits(h.changes, solid, NeedsEvenMore(h)));
    MarksAre(h, solid);
  }

  lemma MarksAre(h: Header, solid: bool)
    ensures FromBits(MoreBits(h.changes, solid, NeedsEvenMore(h))) == Marks(h, solid)
  {
    hide Flag, FromBits, NeedsEvenMore;
    EightBits(MoreBits(h.changes, solid, NeedsEvenMore(h)));
  }

  lemma ExtensionValue(h: Header)
    requires h.number < MAX_EDICTS
    ensures BitsByte(EvenMoreBits(h.modelDbl, h.number)) == ExtensionMarks(h)
  {
    hide FromBits;
    NumberParts(h.number);
    EightBits(EvenMoreBits(h.modelDbl, h.number));
  }

  /** A header, with the flags where the protocol has them. */
  lemma HeaderLayout(h: Header, low: nat, solid: bool)
    requires h.number < MAX_EDICTS
    ensures var r, marks := HeaderBytes(h, low, solid), Marks(h, solid);
            && LittleEndian(r[..2]) == low % 512 + WordMarks(h.changes, marks > 0)
            && |r| == 2 + Flag(marks > 0, 1) + Flag(NeedsEvenMore(h), 1)
            && (marks > 0 ==> r[2] == marks)
            && (NeedsEvenMore(h) ==> r[3] == ExtensionMarks(h))
  {
    hide FromBits, LittleEndian, Marks, WordMarks, ExtensionMarks, HeaderWord, WordBits, NeedsEvenMore;
    var more := MoreBits(h.changes, solid, NeedsEvenMore(h));
    var word := HeaderWord(low, WordBits(h.changes, false, true in more));
    MarksValue(h, solid);
    WordValue(h, low, true in more);
    ExtensionValue(h);
    Le16IsLittleEndian(word);
    Le16Length(word);
    assert NeedsEvenMore(h) ==> more[7];
    assert HeaderBytes(h, low, solid)[..2] == Le16(word);
  }

  /** The record that takes an entity away. */
  function Removal(number: nat): (r: seq<byte>)
    requires number < MAX_EDICTS
    ensures |r| <= 4
  {
    if number >= 512 then
      Le16(number + 0x4000 + 0x8000) + [0x80]
      + [(if number / 512 % 2 == 1 then 0x20 else 0) + (if number >= 1024 then 0x40 else 0)]
    else
      Le16(number + 0x4000)
  }

  datatype Parsed = End(rest: seq<byte>) | Entry(header: Header, rest: seq<byte>)

  /** Reading one header, or the zero word that ends the list. */
  function ParseHeader(bytes: seq<byte>): Option<Parsed> {
    if |bytes| < 2 then None
    else
      var word := Short(bytes[0], bytes[1]);
      var w := ToBits(word / 512, 7);
      if word == 0 then Some(End(bytes[2..]))
      else if !w[6] then Some(Entry(HeaderOf(word % 512, w, NONE, NONE), bytes[2..]))
      else if |bytes| < 3 then None
      else
        var m := ToBits(bytes[2], 8);
        if !m[7] then Some(Entry(HeaderOf(word % 512, w, m, NONE), bytes[3..]))
        else if |bytes| < 4 then None
        else Some(Entry(HeaderOf(word % 512, w, m, ToBits(bytes[3], 8)), bytes[4..]))
  }

  const NONE: seq<bool> := [false, false, false, false, false, false, false, false]

  function HeaderOf(low: nat, w: seq<bool>, m: seq<bool>, e: seq<bool>): Header
    requires |w| == 7 && |m| == 8 && |e| == 8
  {
    Header(low + (if e[5] then 512 else 0) + (if e[6] then 1024 else 0), w[5],
           Changes(m[2], w[4], m[3], m[4], m[5], w[0], m[0], w[1], w[3], w[2], m[1]), e[3])
  }

  lemma ShortOfLe16(w: uint16, rest: seq<byte>)
    ensures |Le16(w) + rest| >= 2
    ensures var b := Le16(w) + rest; Short(b[0], b[1]) == w && b[2..] == rest
  {
  }

  lemma WordParts(low: nat, b: seq<bool>)
    requires |b| == 7
    ensures HeaderWord(low, b) % 512 == low % 512
    ensures ToBits(HeaderWord(low, b) / 512, 7) == b
    ensures HeaderWord(low, b) == 0 ==> true !in b
  {
    NoBits(b);
    BitsRoundTrip(b);
    assert HeaderWord(low, b) / 512 == FromBits(b);
  }

  lemma NumberParts(number: nat)
    requires number < MAX_EDICTS
    ensures number == number % 512 + (if number / 512 % 2 == 1 then 512 else 0)
            + (if number / 1024 % 2 == 1 then 1024 else 0)
    ensures number < 512 ==> number / 512 % 2 == 0 && number / 1024 % 2 == 0
    ensures (number / 1024 % 2 == 1) == (number >= 1024)
    ensures 512 <= number < 1024 ==> number / 512 % 2 == 1
    ensures 1024 <= number ==> (number / 512 % 2 == 1) == (number >= 1536)
  {
  }

  /** The entity number survives its nine bits and two extension bits, and so does every flag;
      a header is never taken for the end of the list. */
  lemma HeaderRoundTrip(h: Header, solid: bool, rest: seq<byte>)
    requires 1 <= h.number < MAX_EDICTS && !h.remove
    ensures ParseHeader(HeaderBytes(h, h.number, solid) + rest) == Some(Entry(h, rest))
  {
    hide FromBits, ToBits, Le16, Short;
    var more := MoreBits(h.changes, solid, NeedsEvenMore(h));
    var wb := WordBits(h.changes, false, true in more);
    var even := EvenMoreBits(h.modelDbl, h.number);
    var word := HeaderWord(h.number, wb);
    var bytes := HeaderBytes(h, h.number, solid) + rest;
    NumberParts(h.number);
    WordParts(h.number, wb);
    BitsRoundTrip(more);
    BitsRoundTrip(even);
    var after := (if true in more then [BitsByte(more)] else [])
                 + (if NeedsEvenMore(h) then [BitsByte(even)] else []);
    ShortOfLe16(word, after + rest);
    assert bytes == Le16(word) + (after + rest);
    hide HeaderWord;
    assert NeedsEvenMore(h) ==> more[7];
    if true in more {
      assert wb[6];
      if NeedsEvenMore(h) {
        assert bytes[2..] == [BitsByte(more), BitsByte(even)] + rest;
      } else {
        assert bytes[2..] == [BitsByte(more)] + rest;
      }
    } else {
      assert forall i :: 0 <= i < 8 ==> !more[i];
      assert !more[0] && !more[1] && !more[2] && !more[3] && !more[4] && !more[5] && !more[7];
    }
  }

  lemma TopBits(x: nat)
    ensures ToBits(x, 8)[5] == (x / 32 % 2 == 1) && ToBits(x, 8)[6] == (x / 64 % 2 == 1)
            && ToBits(x, 8)[7] == (x / 128 % 2 == 1)
    ensures ToBits(x, 7)[5] == (x / 32 % 2 == 1) && ToBits(x, 7)[6] == (x / 64 % 2 == 1)
  {
    hide ToBits;
    BitAt(x, 8, 5);
    BitAt(x, 8, 6);
    BitAt(x, 8, 7);
    BitAt(x, 7, 5);
    BitAt(x, 7, 6);
    assert Pow2(5) == 32 && Pow2(6) == 64 && Pow2(7) == 128;
  }

  lemma {:induction false} BitAt(x: nat, k: nat, i: nat)
    requires i < k
    ensures Pow2(i) > 0 && ToBits(x, k)[i] == (x / Pow2(i) % 2 == 1)
  {
    if i > 0 {
      BitAt(x / 2, k - 1, i - 1);
      DivideTwice(x, Pow2(i - 1));
    }
  }

  lemma DivideTwice(x: nat, d: nat)
    requires d > 0
    ensures x / (2 * d) == x / 2 / d
  {
    var q := x / 2 / d;
    var r := x / 2 - q * d;
    assert 0 <= r < d;
    assert x == q * (2 * d) + (2 * r + x % 2) && 0 <= 2 * r + x % 2 < 2 * d;
    QuotientIs(x, 2 * d, q, 2 * r + x % 2);
  }

  lemma QuotientIs(x: int, d: int, q: int, r: int)
    requires 0 <= r < d && x == q * d + r
    ensures x / d == q
  {
    var p := x / d;
    assert p < q ==> (p + 1) * d <= q * d;
    assert q < p ==> (q + 1) * d <= p * d;
  }

  /** A removal: the whole number, with the flag for it, and above 511 the extensions that the number needs. */
  lemma RemovalLayout(number: nat)
    requires number < MAX_EDICTS
    ensures var r := Removal(number);
            if number < 512 then |r| == 2 && LittleEndian(r) == number + U_REMOVE
            else
              && |r| == 4 && LittleEndian(r[..2]) == number + U_REMOVE + U_MOREBITS && r[2] == U_FTE_EVENMORE
              && r[3] == Flag(number < 1024 || 1536 <= number, U_FTE_ENTITYDBL) + Flag(1024 <= number, U_FTE_ENTITYDBL2)
  {
    hide LittleEndian;
    NumberParts(number);
    if number < 512 {
      Le16IsLittleEndian(number + 0x4000);
    } else {
      Le16IsLittleEndian(number + 0xc000);
      assert Removal(number)[..2] == Le16(number + 0xc000);
    }
  }

  /** An entity's removal is read back, although the bits of a number above 511 fall on those of U_ORIGIN1 and
      U_ORIGIN2. */
  lemma RemovalRoundTrip(number: nat, rest: seq<byte>)
    requires 1 <= number < MAX_EDICTS
    ensures var p := ParseHeader(Removal(number) + rest);
            p.Some? && p.value.Entry? && p.value.header.number == number && p.value.header.remove
            && p.value.rest == rest
  {
    hide Le16, Short, ToBits;
    NumberParts(number);
    if number < 512 {
      TopBits((number + 0x4000) / 512);
      ShortOfLe16(number + 0x4000, rest);
      assert (number + 0x4000) / 512 == 32;
    } else {
      var e := (if number / 512 % 2 == 1 then 0x20 else 0) + (if number >= 1024 then 0x40 else 0);
      TopBits((number + 0x4000 + 0x8000) / 512);
      TopBits(0x80);
      TopBits(e);
      ShortOfLe16(number + 0x4000 + 0x8000, [0x80, e] + rest);
      assert Removal(number) + rest == Le16(number + 0x4000 + 0x8000) + ([0x80, e] + rest);
      assert (number + 0x4000 + 0x8000) / 512 == number / 512 + 96;
    }
  }

  lemma EndParses(rest: seq<byte>)
    ensures ParseHeader(Le16(0) + rest) == Some(End(rest))
  {
    ShortOfLe16(0, rest);
  }
}
