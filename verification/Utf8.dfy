/** UTF-8 as the host language reads and writes it: strict, shortest form, no surrogates. */
module Utf8 {
  import opened Wrappers

  type byte = b: int | 0 <= b < 256

  function EncodeChar(c: char): (bytes: seq<byte>)
    ensures 1 <= |bytes| <= 4
  {
    var n := c as int;
    if n < 0x80 then [n]
    else if n < 0x800 then [0xC0 + n / 64, 0x80 + n % 64]
    else if n < 0x1_0000 then [0xE0 + n / 4096, 0x80 + n / 64 % 64, 0x80 + n % 64]
    else [0xF0 + n / 262144, 0x80 + n / 4096 % 64, 0x80 + n / 64 % 64, 0x80 + n % 64]
  }

  function Encode(s: string): seq<byte> {
    if s == "" then [] else EncodeChar(s[0]) + Encode(s[1..])
  }

  predicate Continuation(b: byte) {
    0x80 <= b < 0xC0
  }

  predicate IsScalar(n: int) {
    0 <= n < 0xD800 || 0xE000 <= n < 0x11_0000
  }

  /** The code point at the front and the number of bytes it takes. */
  function DecodeChar(s: seq<byte>): (r: Option<(char, nat)>)
    ensures r.Some? ==> 1 <= r.value.1 <= |s|
  {
    if s == [] then None
    else if s[0] < 0x80 then Some((s[0] as char, 1))
    else if 0xC2 <= s[0] < 0xE0 && |s| >= 2 && Continuation(s[1]) then
      Some((((s[0] as int - 0xC0) * 64 + (s[1] as int - 0x80)) as char, 2))
    else if 0xE0 <= s[0] < 0xF0 && |s| >= 3 && Continuation(s[1]) && Continuation(s[2]) then
      var n := (s[0] as int - 0xE0) * 4096 + (s[1] as int - 0x80) * 64 + (s[2] as int - 0x80);
      if n >= 0x800 && IsScalar(n) then Some((n as char, 3)) else None
    else if 0xF0 <= s[0] < 0xF5 && |s| >= 4 && Continuation(s[1]) && Continuation(s[2]) && Continuation(s[3]) then
      var n := (s[0] as int - 0xF0) * 262144 + (s[1] as int - 0x80) * 4096 + (s[2] as int - 0x80) * 64 + (s[3] as int - 0x80);
      if n >= 0x1_0000 && IsScalar(n) then Some((n as char, 4)) else None
    else None
  }

  function Decode(s: seq<byte>): Option<string>
    decreases |s|
  {
    if s == [] then Some("")
    else match DecodeChar(s)
      case None => None
      case Some((c, n)) =>
        match Decode(s[n..])
        case None => None
        case Some(rest) => Some([c] + rest)
  }

  lemma Digits64(n: nat)
    ensures n == (n / 64) * 64 + n % 64
    ensures n == (n / 4096) * 4096 + (n / 64 % 64) * 64 + n % 64
  {
  }

  lemma FourBytes(n: nat)
    requires 0x1_0000 <= n < 0x11_0000
    ensures n == (n / 262144) * 262144 + (n / 4096 % 64) * 4096 + (n / 64 % 64) * 64 + n % 64
  {
    Digits64(n);
    assert n / 4096 == (n / 262144) * 64 + n / 4096 % 64;
  }

  lemma DecodeShort(c: char, rest: seq<byte>)
    requires c as int < 0x800
    ensures DecodeChar(EncodeChar(c) + rest) == Some((c, |EncodeChar(c)|))
  {
    Digits64(c as int);
  }

  lemma DecodeThree(c: char, rest: seq<byte>)
    requires 0x800 <= c as int < 0x1_0000
    ensures DecodeChar(EncodeChar(c) + rest) == Some((c, |EncodeChar(c)|))
  {
    Digits64(c as int);
  }

  lemma DecodeFour(c: char, rest: seq<byte>)
    requires 0x1_0000 <= c as int
    ensures DecodeChar(EncodeChar(c) + rest) == Some((c, |EncodeChar(c)|))
  {
    FourBytes(c as int);
  }

  lemma DecodeEncodedChar(c: char, rest: seq<byte>)
    ensures DecodeChar(EncodeChar(c) + rest) == Some((c, |EncodeChar(c)|))
  {
    hide DecodeChar, EncodeChar;
    if c as int < 0x800 {
      DecodeShort(c, rest);
    } else if c as int < 0x1_0000 {
      DecodeThree(c, rest);
    } else {
      DecodeFour(c, rest);
    }
  }

  /** Decoding what was encoded gives the text back. */
  lemma {:induction false} DecodeEncoded(s: string)
    ensures Decode(Encode(s)) == Some(s)
    decreases |s|
  {
    hide DecodeChar, EncodeChar;
    if s != "" {
      DecodeEncodedChar(s[0], Encode(s[1..]));
      DecodeEncoded(s[1..]);
      assert Encode(s)[|EncodeChar(s[0])|..] == Encode(s[1..]);
      assert [s[0]] + s[1..] == s;
    }
  }

  // ----- nothing else is decoded -----

  lemma TwoBytesAreShort(a: byte, b: byte)
    requires 0xC2 <= a < 0xE0 && Continuation(b)
    ensures EncodeChar(((a as int - 0xC0) * 64 + (b as int - 0x80)) as char) == [a, b]
  {
    var n := (a as int - 0xC0) * 64 + (b as int - 0x80);
    assert n / 64 == a as int - 0xC0 && n % 64 == b as int - 0x80;
  }

  lemma Quotients(n: nat, x: nat, y: nat, z: nat)
    requires n == x * 4096 + y * 64 + z && y < 64 && z < 64
    ensures n / 4096 == x && n / 64 % 64 == y && n % 64 == z && n / 64 == x * 64 + y
  {
    assert n == (x * 64 + y) * 64 + z;
    assert n / 64 == x * 64 + y;
    assert n == x * 4096 + (y * 64 + z);
  }

  lemma ThreeBytesAreShort(a: byte, b: byte, c: byte)
    requires 0xE0 <= a < 0xF0 && Continuation(b) && Continuation(c)
    requires var n := (a as int - 0xE0) * 4096 + (b as int - 0x80) * 64 + (c as int - 0x80);
             0x800 <= n && IsScalar(n)
    ensures EncodeChar(((a as int - 0xE0) * 4096 + (b as int - 0x80) * 64 + (c as int - 0x80)) as char) == [a, b, c]
  {
    Quotients((a as int - 0xE0) * 4096 + (b as int - 0x80) * 64 + (c as int - 0x80), a as int - 0xE0, b as int - 0x80, c as int - 0x80);
  }

  lemma FourBytesAreShort(a: byte, b: byte, c: byte, d: byte)
    requires 0xF0 <= a < 0xF5 && Continuation(b) && Continuation(c) && Continuation(d)
    requires var n := (a as int - 0xF0) * 262144 + (b as int - 0x80) * 4096 + (c as int - 0x80) * 64 + (d as int - 0x80);
             0x1_0000 <= n && IsScalar(n)
    ensures EncodeChar(((a as int - 0xF0) * 262144 + (b as int - 0x80) * 4096 + (c as int - 0x80) * 64 + (d as int - 0x80)) as char)
         == [a, b, c, d]
  {
    var x, y, z, w := a as int - 0xF0, b as int - 0x80, c as int - 0x80, d as int - 0x80;
    var n := x * 262144 + y * 4096 + z * 64 + w;
    Quotients(n, x * 64 + y, z, w);
    assert n / 4096 == x * 64 + y;
    assert n / 4096 % 64 == y && n / 4096 / 64 == x;
    assert n / 262144 == x;
  }

  lemma DecodedCharIsEncoded(s: seq<byte>)
    requires DecodeChar(s).Some?
    ensures var (c, n) := DecodeChar(s).value; s[..n] == EncodeChar(c)
  {
    hide EncodeChar;
    if s[0] < 0x80 {
      OneByteIsShort(s[0]);
    } else if s[0] < 0xE0 {
      TwoBytesAreShort(s[0], s[1]);
    } else if s[0] < 0xF0 {
      ThreeBytesAreShort(s[0], s[1], s[2]);
    } else {
      FourBytesAreShort(s[0], s[1], s[2], s[3]);
    }
  }

  lemma OneByteIsShort(a: byte)
    requires a < 0x80
    ensures EncodeChar(a as char) == [a]
  {
  }

  /** Bytes decode to a text exactly when they are its encoding. */
  lemma {:induction false} DecodeIsExact(bytes: seq<byte>, s: string)
    ensures Decode(bytes) == Some(s) <==> bytes == Encode(s)
    decreases |bytes|
  {
    hide DecodeChar, EncodeChar;
    if Decode(bytes) == Some(s) && bytes != [] {
      DecodedCharIsEncoded(bytes);
      var (c, n) := DecodeChar(bytes).value;
      DecodeIsExact(bytes[n..], s[1..]);
      assert s == [c] + s[1..] && bytes == bytes[..n] + bytes[n..];
    }
    if bytes == Encode(s) {
      DecodeEncoded(s);
    }
  }
}
