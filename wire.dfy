/** Bytes as they come off the panel's debug port, and the 4-byte frame. */
module Wire {

  /** One octet, as Python's `struct.unpack("B", ...)` yields it. */
  type byte = b: int | 0 <= b < 256

  /** A packet of the panel's debug protocol: always exactly four bytes. */
  type Frame = s: seq<byte> | |s| == 4 witness [0, 0, 0, 0]

  /** An unsigned 16-bit value, as `struct.unpack("!H", ...)` yields it. */
  type word = w: int | 0 <= w < 0x1_0000

  /** The big-endian ("!") 16-bit word made of bytes `hi` then `lo`. */
  function Word(hi: byte, lo: byte): (w: word)
    ensures w / 256 == hi && w % 256 == lo
  {
    hi * 256 + lo
  }

  /** The two bytes that a big-endian 16-bit word is sent as. */
  function WordBytes(w: word): (r: seq<byte>)
    ensures |r| == 2 && Word(r[0], r[1]) == w
  {
    [w / 256, w % 256]
  }

  /** Unpacking a word from two bytes and sending it again gives the same two bytes. */
  lemma WordBytesOfWord(hi: byte, lo: byte)
    ensures WordBytes(Word(hi, lo)) == [hi, lo]
  {
  }

  /** The frame whose first big-endian word is `w0` and second is `w1`. */
  function FrameOfWords(w0: word, w1: word): (f: Frame)
    ensures Word(f[0], f[1]) == w0 && Word(f[2], f[3]) == w1
  {
    WordBytes(w0) + WordBytes(w1)
  }

  /** Every frame is the frame of its own two words. */
  lemma FrameOfItsWords(f: Frame)
    ensures FrameOfWords(Word(f[0], f[1]), Word(f[2], f[3])) == f
  {
    WordBytesOfWord(f[0], f[1]);
    WordBytesOfWord(f[2], f[3]);
  }

  // ---------------------------------------------------------------------
  // Division facts used to take shift-and-mask fields apart
  // ---------------------------------------------------------------------

  lemma MulLeft(a: int, x: int, y: int)
    requires a > 0 && x <= y
    ensures a * x <= a * y
  {
  }

  /** Quotient and remainder are unique. */
  lemma DivModOf(x: int, d: int, q: int, r: int)
    requires 0 < d && 0 <= r < d && x == q * d + r
    ensures x / d == q && x % d == r
  {
    var q', r' := x / d, x % d;
    assert (q - q') * d == r' - r;
    if q > q' {
      MulLeft(d, 1, q - q');
    } else if q < q' {
      MulLeft(d, q - q', -1);
    }
  }

  /** Shifting right by `a` bits then by `b` bits is shifting by `a + b` bits. */
  lemma DivDiv(x: int, a: int, b: int)
    requires x >= 0 && a > 0 && b > 0
    ensures x / a / b == x / (a * b)
  {
    var q1, r1 := x / a, x % a;
    var q2, r2 := q1 / b, q1 % b;
    assert x == (a * b) * q2 + (a * r2 + r1) by {
      assert q1 == b * q2 + r2;
      assert x == a * q1 + r1;
      assert a * q1 == a * (b * q2) + a * r2;
    }
    MulLeft(a, r2, b - 1);
    assert a * (b - 1) == a * b - a;
    DivModOf(x, a * b, q2, a * r2 + r1);
  }
}
