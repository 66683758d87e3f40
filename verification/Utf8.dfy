/** UTF-8, as read_text decodes a file (section 3 of RFC 3629): no overlong forms, no surrogates, nothing
    past the last code point. */
module Utf8 {
  import opened Collections
  import opened Common

  newtype byte = x: int | 0 <= x < 256

  /** A continuation byte holding six bits. */
  function Six(n: nat): (b: byte)
    requires n < 64
  {
    (0x80 + n) as byte
  }

  function EncodeChar(c: char): (bytes: seq<byte>)
    ensures 1 <= |bytes| <= 4
  {
    var n := c as int;
    if n < 0x80 then [n as byte]
    else if n < 0x800 then [(0xC0 + n / 64) as byte, Six(n % 64)]
    else if n < 0x1_0000 then [(0xE0 + n / 4096) as byte, Six(n / 64 % 64), Six(n % 64)]
    else [(0xF0 + n / 0x4_0000) as byte, Six(n / 4096 % 64), Six(n / 64 % 64), Six(n % 64)]
  }

  function Encode(s: string): seq<byte> {
    FlatMap(s, EncodeChar)
  }

  predicate IsContinuation(b: byte) { 0x80 <= b < 0xC0 }

  function SixOf(b: byte): (n: nat)
    requires IsContinuation(b)
    ensures n < 64 && b == Six(n)
  {
    b as int - 0x80
  }

  /** The character of this number, if it is one and needs at least this many bits. */
  function CharFrom(n: nat, least: nat): Option<char> {
    if n < least || 0xD800 <= n < 0xE000 || n >= 0x11_0000 then None else Some(n as char)
  }

  /** The first character and the number of its bytes. */
  function DecodeFirst(b: seq<byte>): Option<(char, nat)>
    requires b != []
  {
    var lead := b[0] as int;
    if lead < 0x80 then Some((lead as char, 1))
    else if lead < 0xC0 then None
    else if lead < 0xE0 then
      if |b| < 2 || !IsContinuation(b[1]) then None
      else Sized(CharFrom((lead - 0xC0) * 64 + SixOf(b[1]), 0x80), 2)
    else if lead < 0xF0 then
      if |b| < 3 || !IsContinuation(b[1]) || !IsContinuation(b[2]) then None
      else Sized(CharFrom((lead - 0xE0) * 4096 + SixOf(b[1]) * 64 + SixOf(b[2]), 0x800), 3)
    else if lead < 0xF8 then
      if |b| < 4 || !IsContinuation(b[1]) || !IsContinuation(b[2]) || !IsContinuation(b[3]) then None
      else
        Sized(CharFrom((lead - 0xF0) * 0x4_0000 + SixOf(b[1]) * 4096 + SixOf(b[2]) * 64 + SixOf(b[3]), 0x1_0000), 4)
    else None
  }

  function Sized(c: Option<char>, n: nat): Option<(char, nat)> {
    if c.None? then None else Some((c.value, n))
  }

  lemma DecodeFirstSize(b: seq<byte>)
    requires b != [] && DecodeFirst(b).Some?
    ensures 1 <= DecodeFirst(b).value.1 <= |b|
  {
  }

  /** None is the UnicodeDecodeError. */
  function Decode(b: seq<byte>): Option<string>
    decreases |b|
  {
    if b == [] then Some([])
    else
      match DecodeFirst(b)
      case None => None
      case Some((c, n)) =>
        DecodeFirstSize(b);
        match Decode(b[n..])
        case None => None
        case Some(rest) => Some([c] + rest)
  }

  // ----- numbers in base 64 -----

  lemma Join2(a: nat, x: nat)
    requires x < 64
    ensures (a * 64 + x) / 64 == a && (a * 64 + x) % 64 == x
  {
  }

  lemma Join3(a: nat, x: nat, y: nat)
    requires x < 64 && y < 64
    ensures var n := a * 4096 + x * 64 + y; n / 4096 == a && n / 64 % 64 == x && n % 64 == y
  {
    Join2(a * 64 + x, y);
    Join2(a, x);
    assert a * 4096 + x * 64 + y == (a * 64 + x) * 64 + y;
  }

  lemma Join4(a: nat, x: nat, y: nat, z: nat)
    requires x < 64 && y < 64 && z < 64
    ensures var n := a * 0x4_0000 + x * 4096 + y * 64 + z;
            n / 0x4_0000 == a && n / 4096 % 64 == x && n / 64 % 64 == y && n % 64 == z
  {
    var m := a * 4096 + x * 64 + y;
    Join3(a, x, y);
    Join2(m, z);
    assert a * 0x4_0000 + x * 4096 + y * 64 + z == m * 64 + z;
  }

  lemma Parts3(n: nat)
    ensures n == n / 4096 * 4096 + n / 64 % 64 * 64 + n % 64
  {
    var m := n / 64;
    Join3(m / 64, m % 64, n % 64);
  }

  lemma Parts4(n: nat)
    ensures n == n / 0x4_0000 * 0x4_0000 + n / 4096 % 64 * 4096 + n / 64 % 64 * 64 + n % 64
  {
    var m := n / 64;
    var k := m / 64;
    Join4(k / 64, k % 64, m % 64, n % 64);
  }

  // ----- one character -----

  lemma SixUndone(n: nat)
    requires n < 64
    ensures IsContinuation(Six(n)) && SixOf(Six(n)) == n
  {
  }

  lemma Decodes2(c: char, b: seq<byte>)
    requires 0x80 <= c as int < 0x800 && |b| >= 2
    requires b[0] == (0xC0 + c as int / 64) as byte && b[1] == Six(c as int % 64)
    ensures DecodeFirst(b) == Some((c, 2))
  {
    SixUndone(c as int % 64);
  }

  lemma Decodes3(c: char, b: seq<byte>)
    requires 0x800 <= c as int < 0x1_0000 && |b| >= 3 && b[0] == (0xE0 + c as int / 4096) as byte
    requires b[1] == Six(c as int / 64 % 64) && b[2] == Six(c as int % 64)
    ensures DecodeFirst(b) == Some((c, 3))
  {
    SixUndone(c as int / 64 % 64);
    SixUndone(c as int % 64);
    Parts3(c as int);
  }

  lemma Decodes4(c: char, b: seq<byte>)
    requires 0x1_0000 <= c as int && |b| >= 4 && b[0] == (0xF0 + c as int / 0x4_0000) as byte
    requires b[1] == Six(c as int / 4096 % 64) && b[2] == Six(c as int / 64 % 64) && b[3] == Six(c as int % 64)
    ensures DecodeFirst(b) == Some((c, 4))
  {
    SixUndone(c as int / 4096 % 64);
    SixUndone(c as int / 64 % 64);
    SixUndone(c as int % 64);
    Parts4(c as int);
  }

  lemma DecodesEncodedChar(c: char, rest: seq<byte>)
    ensures DecodeFirst(EncodeChar(c) + rest) == Some((c, |EncodeChar(c)|))
  {
    var n := c as int;
    var b := EncodeChar(c) + rest;
    if n < 0x80 { assert b[0] == n as byte; }
    else if n < 0x800 { Decodes2(c, b); }
    else if n < 0x1_0000 { Decodes3(c, b); }
    else { Decodes4(c, b); }
  }

  lemma Encodes2(b: seq<byte>)
    requires |b| >= 2 && 0xC0 <= b[0] < 0xE0 && IsContinuation(b[1])
    requires DecodeFirst(b).Some?
    ensures DecodeFirst(b).value.1 == 2 && EncodeChar(DecodeFirst(b).value.0) == [b[0], b[1]]
  {
    Join2(b[0] as int - 0xC0, SixOf(b[1]));
  }

  lemma Encodes3(b: seq<byte>)
    requires |b| >= 3 && 0xE0 <= b[0] < 0xF0 && IsContinuation(b[1]) && IsContinuation(b[2])
    requires DecodeFirst(b).Some?
    ensures DecodeFirst(b).value.1 == 3 && EncodeChar(DecodeFirst(b).value.0) == [b[0], b[1], b[2]]
  {
    Join3(b[0] as int - 0xE0, SixOf(b[1]), SixOf(b[2]));
  }

  lemma Encodes4(b: seq<byte>)
    requires |b| >= 4 && 0xF0 <= b[0] < 0xF8
    requires IsContinuation(b[1]) && IsContinuation(b[2]) && IsContinuation(b[3])
    requires DecodeFirst(b).Some?
    ensures DecodeFirst(b).value.1 == 4 && EncodeChar(DecodeFirst(b).value.0) == [b[0], b[1], b[2], b[3]]
  {
    Join4(b[0] as int - 0xF0, SixOf(b[1]), SixOf(b[2]), SixOf(b[3]));
  }

  /** What decodes to a character starts with its encoding. */
  lemma EncodesDecodedChar(b: seq<byte>)
    requires b != [] && DecodeFirst(b).Some?
    ensures var (c, n) := DecodeFirst(b).value; n <= |b| && b[..n] == EncodeChar(c)
  {
    if b[0] < 0x80 { assert b[..1] == [b[0]]; }
    else if b[0] < 0xE0 { Encodes2(b); }
    else if b[0] < 0xF0 { Encodes3(b); }
    else { Encodes4(b); }
  }

  lemma {:induction false} DecodeUndoesEncode(s: string)
    ensures Decode(Encode(s)) == Some(s)
  {
    if s != [] {
      var first, rest := EncodeChar(s[0]), Encode(s[1..]);
      DecodeUndoesEncode(s[1..]);
      DecodesEncodedChar(s[0], rest);
      assert (first + rest)[|first|..] == rest;
      assert [s[0]] + s[1..] == s;
    }
  }

  lemma {:induction false} EncodeUndoesDecode(b: seq<byte>)
    requires Decode(b).Some?
    ensures Encode(Decode(b).value) == b
    decreases |b|
  {
    if b != [] {
      var (c, n) := DecodeFirst(b).value;
      DecodeFirstSize(b);
      EncodesDecodedChar(b);
      EncodeUndoesDecode(b[n..]);
      var rest := Decode(b[n..]).value;
      assert ([c] + rest)[1..] == rest;
      assert b == b[..n] + b[n..];
    }
  }

  /** Bytes decode to a text exactly when they are its encoding; so they are refused exactly when they
      encode no text. */
  lemma DecodeExactly(b: seq<byte>, s: string)
    ensures Decode(b) == Some(s) <==> b == Encode(s)
  {
    DecodeUndoesEncode(s);
    if Decode(b).Some? { EncodeUndoesDecode(b); }
  }

  ghost predicate NotUtf8(b: seq<byte>) {
    forall s: string :: b != Encode(s)
  }

  lemma RefusedExactly(b: seq<byte>)
    ensures Decode(b).None? <==> NotUtf8(b)
  {
    if Decode(b).None? {
      forall s: string ensures b != Encode(s) { DecodeExactly(b, s); }
    } else {
      DecodeExactly(b, Decode(b).value);
    }
  }
}
