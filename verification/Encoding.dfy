/**
 Strings and their bytes: the well-formed byte strings of `Utf8` are exactly the encoded strings
 (`WellFormedIffEncoded`), and the bytes that `Instructions` charges for a text are those of its encoding.
 */
module Encoding {
  import Instructions
  import opened Utf8

  /** A byte behind the first of a character: six bits of its number. */
  function TailByte(n: nat): (b: Byte)
    ensures Tail(b)
  {
    var low := n % 64;
    assert 0 <= low < 64;
    0x80 + low
  }

  function Low(b: Byte): (n: nat)
    requires Tail(b)
    ensures n < 64
  {
    b - 0x80
  }

  /** The encoding of section 3 of RFC 3629. */
  function EncodeChar(c: char): (r: seq<Byte>)
    ensures 1 <= |r| <= 4
  {
    var n := c as int;
    if n < 0x80 then [n]
    else if n < 0x800 then [0xC0 + n / 64, TailByte(n)]
    else if n < 0x1_0000 then [0xE0 + n / 4096, TailByte(n / 64), TailByte(n)]
    else [0xF0 + n / 262144, TailByte(n / 4096), TailByte(n / 64), TailByte(n)]
  }

  function Encode(s: string): seq<Byte> {
    if s == "" then [] else EncodeChar(s[0]) + Encode(s[1..])
  }

  /** The bytes charged for a text are the bytes of its encoding. */
  lemma {:induction false} BytesAreEncoded(s: string)
    ensures Instructions.Bytes(s) == |Encode(s)|
  {
    if s != "" {
      BytesAreEncoded(s[1..]);
    }
  }

  lemma EncodedCharIsRead(c: char, rest: seq<Byte>)
    ensures CharLen(EncodeChar(c) + rest) == |EncodeChar(c)|
  {
    var b := EncodeChar(c);
    assert forall i :: 0 <= i < |b| ==> (b + rest)[i] == b[i];
  }

  lemma {:induction false} EncodedIsWellFormed(s: string)
    ensures WellFormed(Encode(s))
  {
    if s != "" {
      EncodedCharIsRead(s[0], Encode(s[1..]));
      assert Encode(s)[|EncodeChar(s[0])|..] == Encode(s[1..]);
      EncodedIsWellFormed(s[1..]);
    }
  }

  lemma TwoDigits(x: nat, y: nat)
    requires y < 64
    ensures (x * 64 + y) / 64 == x && (x * 64 + y) % 64 == y
  {
  }

  lemma TailByteOf(b: Byte, x: nat)
    requires Tail(b)
    ensures TailByte(x * 64 + Low(b)) == b
  {
    TwoDigits(x, Low(b));
  }

  lemma TwoBytesEncode(b: seq<Byte>) returns (c: char)
    requires CharLen(b) == 2
    ensures EncodeChar(c) == b[..2]
  {
    var x: nat := b[0] - 0xC0;
    c := (x * 64 + Low(b[1])) as char;
    TwoDigits(x, Low(b[1]));
    TailByteOf(b[1], x);
  }

  lemma ThreeBytesEncode(b: seq<Byte>) returns (c: char)
    requires CharLen(b) == 3
    ensures EncodeChar(c) == b[..3]
  {
    var x: nat := b[0] - 0xE0;
    var y := x * 64 + Low(b[1]);
    c := (y * 64 + Low(b[2])) as char;
    TwoDigits(x, Low(b[1]));
    TwoDigits(y, Low(b[2]));
    TailByteOf(b[1], x);
    TailByteOf(b[2], y);
    assert (c as int) / 64 == y && (c as int) / 4096 == x;
  }

  lemma FourBytesEncode(b: seq<Byte>) returns (c: char)
    requires CharLen(b) == 4
    ensures EncodeChar(c) == b[..4]
  {
    var x: nat := b[0] - 0xF0;
    var y := x * 64 + Low(b[1]);
    var z := y * 64 + Low(b[2]);
    c := (z * 64 + Low(b[3])) as char;
    TwoDigits(x, Low(b[1]));
    TwoDigits(y, Low(b[2]));
    TwoDigits(z, Low(b[3]));
    TailByteOf(b[1], x);
    TailByteOf(b[2], y);
    TailByteOf(b[3], z);
    assert (c as int) / 64 == z && (c as int) / 4096 == y && (c as int) / 262144 == x;
  }

  /** The bytes that are read as one character encode one. */
  lemma ReadCharIsEncoded(b: seq<Byte>) returns (c: char)
    requires CharLen(b) > 0
    ensures EncodeChar(c) == b[..CharLen(b)]
  {
    match CharLen(b)
    case 1 => c := b[0] as char;
    case 2 => c := TwoBytesEncode(b);
    case 3 => c := ThreeBytesEncode(b);
    case _ => c := FourBytesEncode(b);
  }

  lemma EncodedInFront(b: seq<Byte>, c: char, s: string)
    requires CharLen(b) > 0 && EncodeChar(c) == b[..CharLen(b)] && Encode(s) == b[CharLen(b)..]
    ensures Encode([c] + s) == b
  {
    assert ([c] + s)[1..] == s;
    assert b == b[..CharLen(b)] + b[CharLen(b)..];
  }

  lemma {:induction false} StringOf(b: seq<Byte>) returns (s: string)
    requires WellFormed(b)
    ensures Encode(s) == b
    decreases |b|
  {
    if b == [] {
      return "";
    }
    var c := ReadCharIsEncoded(b);
    var rest := StringOf(b[CharLen(b)..]);
    EncodedInFront(b, c, rest);
    return [c] + rest;
  }

  /** The well-formed byte strings are exactly the encoded strings. */
  lemma WellFormedIffEncoded(b: seq<Byte>)
    ensures WellFormed(b) <==> exists s :: Encode(s) == b
  {
    if s :| Encode(s) == b {
      EncodedIsWellFormed(s);
    }
    if WellFormed(b) {
      var s := StringOf(b);
    }
  }
}
