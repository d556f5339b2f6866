/**
 * The two decoders of the panel's 4-byte packets.
 *
 * Both read the last two bytes as a big-endian timestamp word `w1` with the
 * hours in bits 11-15 and the minutes in bits 4-9 (bit 0 is the least
 * significant).  The code-bytes layout keeps the first two bytes verbatim as
 * an event code; the bitfield layout reads them as a big-endian word `w0` with
 * the type in bit 12, the event in bits 10-11 and the zone in bits 4-8.
 * A shift-and-mask `(w >> s) & (2^k - 1)` on a non-negative word is written
 * `(w / 2^s) % 2^k`.  Neither decoder checks ranges: hours up to 31 and
 * minutes up to 63 are passed through.
 */
module Packet {
  import opened Wire

  /** The hours of a timestamp word: `(w >> 11) & 0b11111`. */
  function Hours(w: word): (h: nat)
    ensures h < 32
  {
    (w / 2048) % 32
  }

  /** The minutes of a timestamp word: `(w >> 4) & 0b111111`. */
  function Minutes(w: word): (m: nat)
    ensures m < 64
  {
    (w / 16) % 64
  }

  // ---------------------------------------------------------------------
  // Code-bytes layout (the table-driven bridge)
  // ---------------------------------------------------------------------

  /** A packet read as a two-byte event code and a timestamp. */
  datatype CodeEvent = CodeEvent(code: seq<int>, hours: nat, minutes: nat)

  /** Decodes a packet as `struct.unpack("!BBH", ...)`: two raw bytes, then the timestamp word. */
  function ParseCodeBytes(f: Frame): (e: CodeEvent)
    ensures e.code == f[..2]
    ensures e.hours < 32 && e.minutes < 64
  {
    var w1 := Word(f[2], f[3]);
    CodeEvent([f[0], f[1]], Hours(w1), Minutes(w1))
  }

  // ---------------------------------------------------------------------
  // Bitfield layout (the static zone bridge)
  // ---------------------------------------------------------------------

  /** A packet read as a zone event and a timestamp. */
  datatype BitfieldEvent = BitfieldEvent(typeBit: nat, event: nat, zone: nat, hours: nat, minutes: nat)

  /** Every field fits its bit width. */
  predicate InRange(e: BitfieldEvent)
  {
    e.typeBit < 2 && e.event < 4 && e.zone < 32 && e.hours < 32 && e.minutes < 64
  }

  /** Decodes a packet as `struct.unpack("!HH", ...)` followed by the five shift-and-masks. */
  function ParseBitfield(f: Frame): (e: BitfieldEvent)
    ensures InRange(e)
    ensures e.hours == Hours(Word(f[2], f[3])) && e.minutes == Minutes(Word(f[2], f[3]))
  {
    var w0 := Word(f[0], f[1]);
    var w1 := Word(f[2], f[3]);
    BitfieldEvent((w0 / 4096) % 2, (w0 / 1024) % 4, (w0 / 16) % 32, Hours(w1), Minutes(w1))
  }

  // ---------------------------------------------------------------------
  // Encoding side: the bits the decoders ignore, and packing
  // ---------------------------------------------------------------------

  /**
   * The bits no field of the bitfield layout reads: bits 0-3, 9 and 13-15 of
   * the first word, bits 0-3 and 10 of the second.
   */
  datatype Padding = Padding(low0: nat, bit9: nat, top0: nat, low1: nat, bit10: nat)
  {
    predicate Valid()
    {
      low0 < 16 && bit9 < 2 && top0 < 8 && low1 < 16 && bit10 < 2
    }
  }

  /** No stray bits at all. */
  const NoPadding := Padding(0, 0, 0, 0, 0)

  /** The timestamp word carrying `hours` and `minutes` and the two unused parts. */
  function TimeWord(hours: nat, minutes: nat, low1: nat, bit10: nat): (w: word)
    requires hours < 32 && minutes < 64 && low1 < 16 && bit10 < 2
    ensures Hours(w) == hours && Minutes(w) == minutes
    ensures w % 16 == low1 && (w / 1024) % 2 == bit10
  {
    var w := hours * 2048 + bit10 * 1024 + minutes * 16 + low1;
    DivModOf(w, 2048, hours, bit10 * 1024 + minutes * 16 + low1);
    DivModOf(hours, 32, 0, hours);
    DivModOf(w, 16, hours * 128 + bit10 * 64 + minutes, low1);
    DivModOf(hours * 128 + bit10 * 64 + minutes, 64, hours * 2 + bit10, minutes);
    DivModOf(w, 1024, hours * 2 + bit10, minutes * 16 + low1);
    DivModOf(hours * 2 + bit10, 2, hours, bit10);
    w
  }

  /** The first word of the bitfield layout carrying `e`'s type, event and zone and `p`'s stray bits. */
  function EventWord(e: BitfieldEvent, p: Padding): (w: word)
    requires InRange(e) && p.Valid()
    ensures (w / 4096) % 2 == e.typeBit && (w / 1024) % 4 == e.event && (w / 16) % 32 == e.zone
    ensures w % 16 == p.low0 && (w / 512) % 2 == p.bit9 && w / 8192 == p.top0
  {
    var w := p.top0 * 8192 + e.typeBit * 4096 + e.event * 1024 + p.bit9 * 512 + e.zone * 16 + p.low0;
    DivModOf(w, 4096, p.top0 * 2 + e.typeBit, e.event * 1024 + p.bit9 * 512 + e.zone * 16 + p.low0);
    DivModOf(p.top0 * 2 + e.typeBit, 2, p.top0, e.typeBit);
    DivModOf(w, 1024, p.top0 * 8 + e.typeBit * 4 + e.event, p.bit9 * 512 + e.zone * 16 + p.low0);
    DivModOf(p.top0 * 8 + e.typeBit * 4 + e.event, 4, p.top0 * 2 + e.typeBit, e.event);
    DivModOf(w, 16, p.top0 * 512 + e.typeBit * 256 + e.event * 64 + p.bit9 * 32 + e.zone, p.low0);
    DivModOf(p.top0 * 512 + e.typeBit * 256 + e.event * 64 + p.bit9 * 32 + e.zone, 32,
             p.top0 * 16 + e.typeBit * 8 + e.event * 2 + p.bit9, e.zone);
    DivModOf(w, 512, p.top0 * 16 + e.typeBit * 8 + e.event * 2 + p.bit9, e.zone * 16 + p.low0);
    DivModOf(p.top0 * 16 + e.typeBit * 8 + e.event * 2 + p.bit9, 2, p.top0 * 8 + e.typeBit * 4 + e.event, p.bit9);
    DivModOf(w, 8192, p.top0, e.typeBit * 4096 + e.event * 1024 + p.bit9 * 512 + e.zone * 16 + p.low0);
    w
  }

  /** The packet the panel sends for event `e`, with the stray bits `p`. */
  function Assemble(e: BitfieldEvent, p: Padding): (f: Frame)
    requires InRange(e) && p.Valid()
  {
    FrameOfWords(EventWord(e, p), TimeWord(e.hours, e.minutes, p.low1, p.bit10))
  }

  /** The stray bits of a packet. */
  function PaddingOf(f: Frame): (p: Padding)
    ensures p.Valid()
  {
    var w0 := Word(f[0], f[1]);
    var w1 := Word(f[2], f[3]);
    Padding(w0 % 16, (w0 / 512) % 2, w0 / 8192, w1 % 16, (w1 / 1024) % 2)
  }

  /** Decoding a packed event gives the event back, whatever the stray bits are. */
  lemma ParseAssemble(e: BitfieldEvent, p: Padding)
    requires InRange(e) && p.Valid()
    ensures ParseBitfield(Assemble(e, p)) == e
  {
    var f := Assemble(e, p);
    assert Word(f[0], f[1]) == EventWord(e, p);
    assert Word(f[2], f[3]) == TimeWord(e.hours, e.minutes, p.low1, p.bit10);
  }

  /** A first word is the sum of its fields and stray bits. */
  lemma EventWordSplit(w: word)
    ensures w == (w / 8192) * 8192 + ((w / 4096) % 2) * 4096 + ((w / 1024) % 4) * 1024
                 + ((w / 512) % 2) * 512 + ((w / 16) % 32) * 16 + w % 16
  {
    DivDiv(w, 16, 32);
    DivDiv(w, 512, 2);
    DivDiv(w, 1024, 4);
    DivDiv(w, 4096, 2);
  }

  /** A timestamp word is the sum of its fields and unused bits. */
  lemma TimeWordSplit(w: word)
    ensures w == Hours(w) * 2048 + ((w / 1024) % 2) * 1024 + Minutes(w) * 16 + w % 16
  {
    DivDiv(w, 16, 64);
    DivDiv(w, 1024, 2);
  }

  /** Every packet is the packing of its decoded event with its own stray bits. */
  lemma AssembleParse(f: Frame)
    ensures Assemble(ParseBitfield(f), PaddingOf(f)) == f
  {
    var e := ParseBitfield(f);
    var p := PaddingOf(f);
    EventWordSplit(Word(f[0], f[1]));
    TimeWordSplit(Word(f[2], f[3]));
    assert EventWord(e, p) == Word(f[0], f[1]);
    assert TimeWord(e.hours, e.minutes, p.low1, p.bit10) == Word(f[2], f[3]);
    FrameOfItsWords(f);
  }

  /** Round trip: packing an in-range event with all other bits clear and decoding it gives the event. */
  lemma RoundTrip(e: BitfieldEvent)
    requires InRange(e)
    ensures ParseBitfield(Assemble(e, NoPadding)) == e
  {
    ParseAssemble(e, NoPadding);
  }

  /**
   * The decoder ignores the bits outside its fields: two packets decode to
   * the same event exactly when one is the other with its stray bits replaced.
   */
  lemma SameEventIffSameFields(f: Frame, g: Frame)
    ensures ParseBitfield(f) == ParseBitfield(g) <==> Assemble(ParseBitfield(f), PaddingOf(g)) == g
  {
    AssembleParse(g);
    ParseAssemble(ParseBitfield(f), PaddingOf(g));
  }

  /** The two layouts read the timestamp identically. */
  lemma LayoutsShareTimestamp(f: Frame)
    ensures ParseCodeBytes(f).hours == ParseBitfield(f).hours
    ensures ParseCodeBytes(f).minutes == ParseBitfield(f).minutes
  {
  }

  /** Packs a code-bytes packet: the code verbatim, then the timestamp word. */
  function AssembleCode(hi: byte, lo: byte, hours: nat, minutes: nat, low1: nat, bit10: nat): (f: Frame)
    requires hours < 32 && minutes < 64 && low1 < 16 && bit10 < 2
  {
    [hi, lo] + WordBytes(TimeWord(hours, minutes, low1, bit10))
  }

  /** Round trip for the code-bytes layout, whatever the unused timestamp bits are. */
  lemma CodeRoundTrip(hi: byte, lo: byte, hours: nat, minutes: nat, low1: nat, bit10: nat)
    requires hours < 32 && minutes < 64 && low1 < 16 && bit10 < 2
    ensures ParseCodeBytes(AssembleCode(hi, lo, hours, minutes, low1, bit10)) == CodeEvent([hi, lo], hours, minutes)
  {
    var f := AssembleCode(hi, lo, hours, minutes, low1, bit10);
    assert Word(f[2], f[3]) == TimeWord(hours, minutes, low1, bit10);
  }

  /** Every packet is the packing of its code, its timestamp and its own unused timestamp bits. */
  lemma CodeAssembleParse(f: Frame)
    ensures var e, w1 := ParseCodeBytes(f), Word(f[2], f[3]);
            AssembleCode(f[0], f[1], e.hours, e.minutes, w1 % 16, (w1 / 1024) % 2) == f
  {
    var w1 := Word(f[2], f[3]);
    TimeWordSplit(w1);
    assert TimeWord(Hours(w1), Minutes(w1), w1 % 16, (w1 / 1024) % 2) == w1;
    WordBytesOfWord(f[2], f[3]);
    assert [f[0], f[1]] + [f[2], f[3]] == f;
  }

  /** The code depends only on bytes 0-1 and the timestamp only on bytes 2-3. */
  lemma CodeBytesLocality(f: Frame, g: Frame)
    ensures f[..2] == g[..2] ==> ParseCodeBytes(f).code == ParseCodeBytes(g).code
    ensures f[2..] == g[2..] ==> ParseCodeBytes(f).hours == ParseCodeBytes(g).hours
    ensures f[2..] == g[2..] ==> ParseCodeBytes(f).minutes == ParseCodeBytes(g).minutes
  {
    if f[2..] == g[2..] {
      assert f[2] == f[2..][0] == g[2..][0] == g[2];
      assert f[3] == f[2..][1] == g[2..][1] == g[3];
    }
  }

  /** 0x00 0x11 0x08 0x1e decodes as a type-0 event 0 of zone 1 at 01:01. */
  lemma BitfieldExample()
    ensures ParseBitfield([0x00, 0x11, 0x08, 0x1e]) == BitfieldEvent(0, 0, 1, 1, 1)
  {
  }
}
