/**
 * The debug text published for every full packet: each byte as Python's
 * `hex()` prints it ("0x" and lowercase digits without leading zeros),
 * separated by single spaces.  A parser for that text is given beside it, to
 * state that the text loses nothing.
 */
module HexDump {
  import opened Wrappers
  import opened Wire

  predicate IsHexDigit(c: char)
  {
    '0' <= c <= '9' || 'a' <= c <= 'f'
  }

  /** The lowercase hexadecimal digit for `d`. */
  function HexDigit(d: nat): (c: char)
    requires d < 16
    ensures IsHexDigit(c)
  {
    "0123456789abcdef"[d]
  }

  /** The value of one hexadecimal digit. */
  function DigitValue(c: char): (d: nat)
    requires IsHexDigit(c)
    ensures d < 16 && HexDigit(d) == c
  {
    if c <= '9' then c as int - '0' as int else c as int - 'a' as int + 10
  }

  lemma DigitValueOfDigit(d: nat)
    requires d < 16
    ensures DigitValue(HexDigit(d)) == d
  {
  }

  /** The digits of `n` in base 16, most significant first, as Python's `hex()` prints them. */
  function HexDigits(n: nat): (s: string)
    ensures |s| >= 1 && forall i :: 0 <= i < |s| ==> IsHexDigit(s[i])
    ensures s[0] == '0' <==> n == 0
    ensures n < 16 <==> |s| == 1
    ensures n < 256 ==> |s| <= 2
  {
    if n < 16 then [HexDigit(n)] else HexDigits(n / 16) + [HexDigit(n % 16)]
  }

  /** Python's `hex(n)` for a non-negative `n`. */
  function Hex(n: nat): (s: string)
    ensures |s| >= 3 && s[..2] == "0x" && ' ' !in s
    ensures forall i :: 2 <= i < |s| ==> IsHexDigit(s[i])
  {
    "0x" + HexDigits(n)
  }

  /** The number a string of hexadecimal digits denotes. */
  function HexValue(s: string): nat
    requires forall i :: 0 <= i < |s| ==> IsHexDigit(s[i])
  {
    if s == [] then 0 else HexValue(s[..|s| - 1]) * 16 + DigitValue(s[|s| - 1])
  }

  /** Reading back the digits `hex()` prints gives the number. */
  lemma {:induction false} HexValueOfDigits(n: nat)
    ensures HexValue(HexDigits(n)) == n
  {
    var s := HexDigits(n);
    if n < 16 {
      DigitValueOfDigit(n);
    } else {
      HexValueOfDigits(n / 16);
      DigitValueOfDigit(n % 16);
      assert s[..|s| - 1] == HexDigits(n / 16);
    }
  }

  /** The text published on the debug topic for a packet. */
  function Dump(f: Frame): (s: string)
    ensures 15 <= |s| <= 19 && s[..2] == "0x"
  {
    Hex(f[0]) + " " + Hex(f[1]) + " " + Hex(f[2]) + " " + Hex(f[3])
  }

  // ---------------------------------------------------------------------
  // Reading the debug text back
  // ---------------------------------------------------------------------

  /** The pieces of `s` between single spaces, as Python's `s.split(" ")` gives them. */
  function Split(s: string): (r: seq<string>)
    ensures |r| >= 1
  {
    if s == [] then [""]
    else
      var rest := Split(s[1..]);
      if s[0] == ' ' then [""] + rest else [[s[0]] + rest[0]] + rest[1..]
  }

  /** A piece without spaces is split off whole. */
  lemma {:induction false} SplitAfterWord(a: string, b: string)
    requires ' ' !in a
    ensures Split(a + b) == [a + Split(b)[0]] + Split(b)[1..]
  {
    var sb := Split(b);
    if a == [] {
      assert a + b == b && a + sb[0] == sb[0];
      assert sb == [sb[0]] + sb[1..];
    } else {
      assert (a + b)[0] == a[0] && (a + b)[1..] == a[1..] + b;
      SplitAfterWord(a[1..], b);
      var rest := Split(a[1..] + b);
      assert rest == [a[1..] + sb[0]] + sb[1..];
      assert rest[1..] == sb[1..];
      assert [a[0]] + (a[1..] + sb[0]) == a + sb[0];
    }
  }

  /** Splitting a word, a space and the rest gives the word and the pieces of the rest. */
  lemma SplitWordSpace(a: string, b: string)
    requires ' ' !in a
    ensures Split(a + " " + b) == [a] + Split(b)
  {
    SplitAfterWord(a, " " + b);
    assert (" " + b)[0] == ' ' && (" " + b)[1..] == b;
    assert Split(" " + b) == [""] + Split(b);
    assert a + " " + b == a + (" " + b);
    assert a + "" == a;
  }

  /** A word without spaces is one piece. */
  lemma SplitWord(a: string)
    requires ' ' !in a
    ensures Split(a) == [a]
  {
    SplitAfterWord(a, "");
    assert a + "" == a;
  }

  /** The number a `hex()` token denotes, if `t` is one. */
  function ParseToken(t: string): (r: Option<nat>)
  {
    if |t| >= 3 && t[..2] == "0x" && forall i :: 2 <= i < |t| ==> IsHexDigit(t[i])
    then Some(HexValue(t[2..]))
    else None
  }

  /** A byte value, if `r` holds one. */
  function AsByte(r: Option<nat>): (b: Option<byte>)
  {
    if r.Some? && r.value < 256 then Some(r.value) else None
  }

  /** The packet a debug text was made from, if it is one. */
  function ParseDump(s: string): (r: Option<Frame>)
  {
    var pieces := Split(s);
    if |pieces| != 4 then None
    else
      var b0, b1, b2, b3 := AsByte(ParseToken(pieces[0])), AsByte(ParseToken(pieces[1])),
                            AsByte(ParseToken(pieces[2])), AsByte(ParseToken(pieces[3]));
      if b0.Some? && b1.Some? && b2.Some? && b3.Some?
      then Some([b0.value, b1.value, b2.value, b3.value])
      else None
  }

  lemma ParseHexToken(b: byte)
    ensures AsByte(ParseToken(Hex(b))) == Some(b)
  {
    var t := Hex(b);
    assert t[2..] == HexDigits(b);
    HexValueOfDigits(b);
  }

  /** The debug text is the four `hex()` tokens separated by exactly three single spaces. */
  lemma DumpPieces(f: Frame)
    ensures Split(Dump(f)) == [Hex(f[0]), Hex(f[1]), Hex(f[2]), Hex(f[3])]
  {
    var h0, h1, h2, h3 := Hex(f[0]), Hex(f[1]), Hex(f[2]), Hex(f[3]);
    assert Dump(f) == h0 + " " + (h1 + " " + (h2 + " " + h3));
    SplitWordSpace(h0, h1 + " " + (h2 + " " + h3));
    SplitWordSpace(h1, h2 + " " + h3);
    SplitWordSpace(h2, h3);
    SplitWord(h3);
  }

  /** Round trip: the debug text determines the packet it was made from. */
  lemma DumpRoundTrip(f: Frame)
    ensures ParseDump(Dump(f)) == Some(f)
  {
    DumpPieces(f);
    ParseHexToken(f[0]);
    ParseHexToken(f[1]);
    ParseHexToken(f[2]);
    ParseHexToken(f[3]);
    assert [f[0], f[1], f[2], f[3]] == f;
  }

  /** Different packets give different debug texts. */
  lemma DumpInjective(f: Frame, g: Frame)
    ensures Dump(f) == Dump(g) ==> f == g
  {
    DumpRoundTrip(f);
    DumpRoundTrip(g);
  }

  /** A byte prints as "0x" and one digit below 16, and as "0x" and two digits from 16 on. */
  lemma HexOfByte(b: byte)
    ensures b < 16 ==> Hex(b) == "0x" + [HexDigit(b)]
    ensures b >= 16 ==> Hex(b) == "0x" + [HexDigit(b / 16), HexDigit(b % 16)]
  {
    if b >= 16 {
      assert HexDigits(b / 16) == [HexDigit(b / 16)];
    }
  }

  /** `hex()` of a few bytes: no zero padding, lowercase digits. */
  lemma HexExamples()
    ensures Hex(0x00) == "0x0" && Hex(0x01) == "0x1" && Hex(0x02) == "0x2" && Hex(0x08) == "0x8"
    ensures Hex(0x11) == "0x11" && Hex(0x1e) == "0x1e" && Hex(0xff) == "0xff"
  {
    assert Hex(0x11) == "0x11" by { HexOfByte(0x11); }
    assert Hex(0x1e) == "0x1e" by { HexOfByte(0x1e); }
    assert Hex(0xff) == "0xff" by { HexOfByte(0xff); }
  }

  /** The text made of four tokens. */
  lemma DumpOfTokens(f: Frame, t0: string, t1: string, t2: string, t3: string)
    requires Hex(f[0]) == t0 && Hex(f[1]) == t1 && Hex(f[2]) == t2 && Hex(f[3]) == t3
    ensures Dump(f) == t0 + " " + t1 + " " + t2 + " " + t3
  {
  }

  /** An all-ones packet dumps as "0xff 0xff 0xff 0xff". */
  lemma DumpAllOnes()
    ensures Dump([0xff, 0xff, 0xff, 0xff]) == "0xff 0xff 0xff 0xff"
  {
    HexExamples();
    DumpOfTokens([0xff, 0xff, 0xff, 0xff], "0xff", "0xff", "0xff", "0xff");
  }

  /** Small bytes are not zero-padded: 0x00 0x11 0x08 0x1e dumps as "0x0 0x11 0x8 0x1e". */
  lemma DumpNoPadding()
    ensures Dump([0x00, 0x11, 0x08, 0x1e]) == "0x0 0x11 0x8 0x1e"
  {
    HexExamples();
    DumpOfTokens([0x00, 0x11, 0x08, 0x1e], "0x0", "0x11", "0x8", "0x1e");
  }

  /** Single-digit bytes print as one digit: 0x01 0x02 0x00 0x00 dumps as "0x1 0x2 0x0 0x0". */
  lemma DumpSingleDigits()
    ensures Dump([0x01, 0x02, 0x00, 0x00]) == "0x1 0x2 0x0 0x0"
  {
    HexExamples();
    DumpOfTokens([0x01, 0x02, 0x00, 0x00], "0x1", "0x2", "0x0", "0x0");
  }
}
