/**
 * `Buffer.from(s).toString('base64')`: the string's UTF-8 bytes in the base64
 * encoding of section 4 of RFC 4648 (alphabet A-Z a-z 0-9 + /, padded with
 * '=' to a multiple of four characters).
 */
module Base64 {
  import opened Wrappers

  type Byte = x: nat | x < 256
  type Sextet = x: nat | x < 64

  /** The character for a 6-bit value, as table 1 of RFC 4648 gives it. */
  function Alphabet(v: Sextet): char {
    if v < 26 then (65 + v) as char
    else if v < 52 then (97 + (v - 26)) as char
    else if v < 62 then (48 + (v - 52)) as char
    else if v == 62 then '+'
    else '/'
  }

  predicate IsBase64Char(c: char) {
    ('A' <= c <= 'Z') || ('a' <= c <= 'z') || ('0' <= c <= '9') || c == '+' || c == '/'
  }

  /** The 6-bit value of a character of the alphabet. */
  function SextetOf(c: char): Sextet
    requires IsBase64Char(c)
  {
    if 'A' <= c <= 'Z' then c as int - 65
    else if 'a' <= c <= 'z' then c as int - 97 + 26
    else if '0' <= c <= '9' then c as int - 48 + 52
    else if c == '+' then 62
    else 63
  }

  /** Every 6-bit value has its own character, and reading it back gives the value. */
  lemma AlphabetRoundTrip(v: Sextet)
    ensures IsBase64Char(Alphabet(v)) && SextetOf(Alphabet(v)) == v
  {
  }

  const Pad := '='

  /** Three bytes as four characters. */
  function Quad(b0: Byte, b1: Byte, b2: Byte): string {
    [Alphabet(b0 / 4), Alphabet((b0 % 4) * 16 + b1 / 16), Alphabet((b1 % 16) * 4 + b2 / 64), Alphabet(b2 % 64)]
  }

  function Encode(s: seq<Byte>): string {
    if |s| == 0 then []
    else if |s| == 1 then [Alphabet(s[0] / 4), Alphabet((s[0] % 4) * 16), Pad, Pad]
    else if |s| == 2 then [Alphabet(s[0] / 4), Alphabet((s[0] % 4) * 16 + s[1] / 16), Alphabet((s[1] % 16) * 4), Pad]
    else Quad(s[0], s[1], s[2]) + Encode(s[3..])
  }

  /** Every started group of three bytes takes four characters. */
  lemma {:induction false} EncodeLength(s: seq<Byte>)
    ensures |Encode(s)| == 4 * ((|s| + 2) / 3)
    decreases |s|
  {
    if |s| >= 3 {
      EncodeLength(s[3..]);
      var n := |s|;
      assert (n + 2) / 3 == (n - 3 + 2) / 3 + 1;
    }
  }

  /**
   * The bytes of one group of four characters. Only the last group (`last`)
   * may end in padding: "xx==" gives one byte and "xxx=" two, provided the
   * bits the padding drops are zero.
   */
  function Group(c0: char, c1: char, c2: char, c3: char, last: bool): (g: Option<seq<Byte>>)
    ensures g.Some? ==> 1 <= |g.value| <= 3 && (|g.value| < 3 ==> last)
  {
    if !IsBase64Char(c0) || !IsBase64Char(c1) then None
    else
      var v0, v1 := SextetOf(c0), SextetOf(c1);
      var b0: Byte := v0 * 4 + v1 / 16;
      if last && c2 == Pad && c3 == Pad then
        if v1 % 16 == 0 then Some([b0]) else None
      else if !IsBase64Char(c2) then None
      else
        var v2 := SextetOf(c2);
        var b1: Byte := (v1 % 16) * 16 + v2 / 4;
        if last && c3 == Pad then
          if v2 % 4 == 0 then Some([b0, b1]) else None
        else if !IsBase64Char(c3) then None
        else Some([b0, b1, (v2 % 4) * 64 + SextetOf(c3)])
  }

  /**
   * The inverse of Encode: group by group; a length that is not a multiple
   * of four, a character outside the alphabet or misplaced padding is rejected.
   */
  function Decode(r: string): Option<seq<Byte>>
  {
    if |r| == 0 then Some([])
    else if |r| < 4 then None
    else
      var g := Group(r[0], r[1], r[2], r[3], |r| == 4);
      if g.None? then None
      else if |r| == 4 then g
      else
        var rest := Decode(r[4..]);
        if rest.None? then None else Some(g.value + rest.value)
  }

  /** A two-digit number in base 16 splits back into its digits. */
  lemma Digits16(hi: nat, lo: nat)
    requires lo < 16
    ensures (hi * 16 + lo) / 16 == hi && (hi * 16 + lo) % 16 == lo
  {
  }

  /** A two-digit number in base 4 splits back into its digits. */
  lemma Digits4(hi: nat, lo: nat)
    requires lo < 4
    ensures (hi * 4 + lo) / 4 == hi && (hi * 4 + lo) % 4 == lo
  {
  }

  lemma QuadRoundTrip(b0: Byte, b1: Byte, b2: Byte, last: bool)
    ensures var q := Quad(b0, b1, b2);
            Group(q[0], q[1], q[2], q[3], last) == Some([b0, b1, b2])
  {
    var v0, v1, v2, v3 := b0 / 4, (b0 % 4) * 16 + b1 / 16, (b1 % 16) * 4 + b2 / 64, b2 % 64;
    AlphabetRoundTrip(v0);
    AlphabetRoundTrip(v1);
    AlphabetRoundTrip(v2);
    AlphabetRoundTrip(v3);
    Digits16(b0 % 4, b1 / 16);
    Digits4(b1 % 16, b2 / 64);
  }

  lemma DecodeOne(b0: Byte)
    ensures Decode([Alphabet(b0 / 4), Alphabet((b0 % 4) * 16), Pad, Pad]) == Some([b0])
  {
    var v0, v1 := b0 / 4, (b0 % 4) * 16;
    AlphabetRoundTrip(v0);
    AlphabetRoundTrip(v1);
    Digits16(b0 % 4, 0);
  }

  lemma DecodeTwo(b0: Byte, b1: Byte)
    ensures Decode([Alphabet(b0 / 4), Alphabet((b0 % 4) * 16 + b1 / 16), Alphabet((b1 % 16) * 4), Pad]) == Some([b0, b1])
  {
    var v0, v1, v2 := b0 / 4, (b0 % 4) * 16 + b1 / 16, (b1 % 16) * 4;
    AlphabetRoundTrip(v0);
    AlphabetRoundTrip(v1);
    AlphabetRoundTrip(v2);
    Digits16(b0 % 4, b1 / 16);
    Digits4(b1 % 16, 0);
  }

  lemma DecodeGroup(b0: Byte, b1: Byte, b2: Byte, rest: string)
    requires Decode(rest).Some?
    ensures Decode(Quad(b0, b1, b2) + rest) == Some([b0, b1, b2] + Decode(rest).value)
  {
    var q := Quad(b0, b1, b2);
    var r := q + rest;
    assert r[0] == q[0] && r[1] == q[1] && r[2] == q[2] && r[3] == q[3] && r[4..] == rest;
    QuadRoundTrip(b0, b1, b2, |r| == 4);
    if rest == [] {
      assert [b0, b1, b2] + Decode(rest).value == [b0, b1, b2];
    }
  }

  lemma EncodeDecodeShort(s: seq<Byte>)
    requires 1 <= |s| <= 2
    ensures Decode(Encode(s)) == Some(s)
  {
    if |s| == 1 {
      DecodeOne(s[0]);
      assert s == [s[0]];
    } else {
      DecodeTwo(s[0], s[1]);
      assert s == [s[0], s[1]];
    }
  }

  lemma EncodeStep(s: seq<Byte>)
    requires |s| >= 3
    ensures Encode(s) == Quad(s[0], s[1], s[2]) + Encode(s[3..])
    ensures Decode(Encode(s[3..])).Some? ==>
              Decode(Encode(s)) == Some([s[0], s[1], s[2]] + Decode(Encode(s[3..])).value)
  {
    if Decode(Encode(s[3..])).Some? {
      DecodeGroup(s[0], s[1], s[2], Encode(s[3..]));
    }
  }

  lemma SplitThree(s: seq<Byte>)
    requires |s| >= 3
    ensures s == [s[0], s[1], s[2]] + s[3..]
  {
  }

  /** Decoding an encoding gives back the bytes. */
  lemma {:induction false} EncodeDecode(s: seq<Byte>)
    ensures Decode(Encode(s)) == Some(s)
    decreases |s|
  {
    if 1 <= |s| <= 2 {
      EncodeDecodeShort(s);
    } else if |s| >= 3 {
      EncodeDecode(s[3..]);
      EncodeStep(s);
      SplitThree(s);
    }
  }

  /** Different bytes never share an encoding. */
  lemma EncodeInjective(s: seq<Byte>, t: seq<Byte>)
    requires Encode(s) == Encode(t)
    ensures s == t
  {
    EncodeDecode(s);
    EncodeDecode(t);
  }

  lemma DropAppend<T>(s: seq<T>, t: seq<T>, n: nat)
    requires n <= |s|
    ensures (s + t)[n..] == s[n..] + t
  {
  }

  lemma DropLastAppend<T>(s: seq<T>, t: seq<T>)
    requires t != []
    ensures (s + t)[..|s + t| - 1] == s + t[..|t| - 1]
    ensures (s + t)[|s + t| - 1] == t[|t| - 1]
  {
  }

  /** A prefix whose length is a multiple of three encodes on its own. */
  lemma {:induction false} EncodeAppend(s: seq<Byte>, t: seq<Byte>)
    requires |s| % 3 == 0
    ensures Encode(s + t) == Encode(s) + Encode(t)
    decreases |s|
  {
    if s == [] {
      assert s + t == t;
    } else {
      EncodeAppend(s[3..], t);
      DropAppend(s, t, 3);
    }
  }

  // ---------------------------------------------------------------------
  // UTF-8
  // ---------------------------------------------------------------------

  /** The UTF-8 bytes of one code point (section 3 of RFC 3629). */
  function Utf8Char(c: char): (r: seq<Byte>)
    ensures 1 <= |r| <= 4
    ensures c as int < 0x80 <==> |r| == 1
    ensures |r| == 1 ==> r[0] == c as int
  {
    var n := c as int;
    if n < 0x80 then [n]
    else if n < 0x800 then [0xC0 + n / 64, 0x80 + n % 64]
    else if n < 0x10000 then [0xE0 + n / 4096, 0x80 + (n / 64) % 64, 0x80 + n % 64]
    else [0xF0 + n / 262144, 0x80 + (n / 4096) % 64, 0x80 + (n / 64) % 64, 0x80 + n % 64]
  }

  function Utf8(s: string): seq<Byte> {
    if s == [] then [] else Utf8(s[..|s| - 1]) + Utf8Char(s[|s| - 1])
  }

  /** Concatenating strings concatenates their bytes. */
  lemma {:induction false} Utf8Append(a: string, b: string)
    ensures Utf8(a + b) == Utf8(a) + Utf8(b)
    decreases |b|
  {
    if b == [] {
      assert a + b == a;
    } else {
      Utf8Append(a, b[..|b| - 1]);
      DropLastAppend(a, b);
    }
  }

  predicate IsAscii(s: string) {
    forall i :: 0 <= i < |s| ==> s[i] as int < 0x80
  }

  /** Every character takes one to four bytes. */
  lemma {:induction false} Utf8Length(s: string)
    ensures |s| <= |Utf8(s)| <= 4 * |s|
  {
    if s != [] {
      Utf8Length(s[..|s| - 1]);
    }
  }

  /** An ASCII string's bytes are its character codes, one per character. */
  lemma {:induction false} Utf8Ascii(s: string)
    requires IsAscii(s)
    ensures |Utf8(s)| == |s|
    ensures forall i :: 0 <= i < |s| ==> Utf8(s)[i] == s[i] as int
  {
    if s != [] {
      var n := |s| - 1;
      assert IsAscii(s[..n]);
      Utf8Ascii(s[..n]);
    }
  }

  /** Two ASCII strings with the same bytes are the same string. */
  lemma Utf8AsciiInjective(s: string, t: string)
    requires IsAscii(s) && IsAscii(t) && Utf8(s) == Utf8(t)
    ensures s == t
  {
    Utf8Ascii(s);
    Utf8Ascii(t);
    assert forall i :: 0 <= i < |s| ==> s[i] as int == t[i] as int;
  }
}
