/** UTF-8 as browsers and Node encode and decode it: sections 4.1 and 8.1.1 of the WHATWG Encoding Standard. */
module Utf8 {
  import opened Basics

  /** Unicode scalar values: code points that are not surrogates. */
  type Scalar = c: int | 0 <= c < 0xD800 || 0xE000 <= c < 0x110000

  type Text = seq<Scalar>

  const REPLACEMENT: Scalar := 0xFFFD

  function EncodeOne(c: Scalar): seq<Byte> {
    if c < 0x80 then [c]
    else if c < 0x800 then [0xC0 + c / 64, 0x80 + c % 64]
    else if c < 0x10000 then [0xE0 + c / 4096, 0x80 + c / 64 % 64, 0x80 + c % 64]
    else [0xF0 + c / 262144, 0x80 + c / 4096 % 64, 0x80 + c / 64 % 64, 0x80 + c % 64]
  }

  function Encode(text: Text): seq<Byte> {
    if text == [] then [] else EncodeOne(text[0]) + Encode(text[1..])
  }

  /**
   * What has been read of a character: its high bits, how many bytes it lacks, and the range the next one must be in.
   */
  datatype Pending = Pending(bits: nat, left: nat, lower: Byte, upper: Byte)

  const NONE: Pending := Pending(0, 0, 0x80, 0xBF)

  /** What is read can only become a scalar value that is not spelt with fewer bytes. */
  predicate Sound(p: Pending) {
    || p == NONE
    || (p.left == 1 && p.lower == 0x80 && p.upper == 0xBF && 2 <= p.bits <= 0x43FF && !(0x360 <= p.bits <= 0x37F))
    || (p.left == 2 && p.lower == (if p.bits == 0 then 0xA0 else 0x80)
      && p.upper == (if p.bits == 13 then 0x9F else 0xBF)
        && 0 <= p.bits <= 0x10F)
    || (p.left == 3 && p.lower == (if p.bits == 0 then 0x90 else 0x80)
      && p.upper == (if p.bits == 4 then 0x8F else 0xBF)
        && 0 <= p.bits <= 4)
  }

  /** Decoding never fails: what is malformed becomes a replacement character. */
  function Decode(bytes: seq<Byte>, p: Pending): Text
    requires Sound(p)
    decreases |bytes|, p.left
  {
    if bytes == [] then if p.left == 0 then [] else [REPLACEMENT]
    else
      var b, rest := bytes[0], bytes[1..];
      if p.left == 0 then
        if b < 0x80 then [b] + Decode(rest, NONE)
        else if 0xC2 <= b <= 0xDF then Decode(rest, Pending(b - 0xC0, 1, 0x80, 0xBF))
        else if 0xE0 <= b <= 0xEF then
          Decode(rest, Pending(b - 0xE0, 2, if b == 0xE0 then 0xA0 else 0x80, if b == 0xED then 0x9F else 0xBF))
        else if 0xF0 <= b <= 0xF4 then
          Decode(rest, Pending(b - 0xF0, 3, if b == 0xF0 then 0x90 else 0x80, if b == 0xF4 then 0x8F else 0xBF))
        else [REPLACEMENT] + Decode(rest, NONE)
      else if b < p.lower || p.upper < b then [REPLACEMENT] + Decode(bytes, NONE)
      else
        var bits := p.bits * 64 + (b - 0x80);
        if p.left == 1 then [bits] + Decode(rest, NONE) else Decode(rest, Pending(bits, p.left - 1, 0x80, 0xBF))
  }

  lemma Lead(b: Byte, rest: seq<Byte>)
    ensures b < 0x80 ==> Decode([b] + rest, NONE) == [b] + Decode(rest, NONE)
    ensures 0xC2 <= b <= 0xDF ==> Decode([b] + rest, NONE) == Decode(rest, Pending(b - 0xC0, 1, 0x80, 0xBF))
    ensures 0xE0 <= b <= 0xEF ==>
              (Decode([b] + rest, NONE)
               == Decode(rest,
                 Pending(b - 0xE0, 2, if b == 0xE0 then 0xA0 else 0x80, if b == 0xED then 0x9F else 0xBF)))
    ensures 0xF0 <= b <= 0xF4 ==>
              (Decode([b] + rest, NONE)
               == Decode(rest,
                 Pending(b - 0xF0, 3, if b == 0xF0 then 0x90 else 0x80, if b == 0xF4 then 0x8F else 0xBF)))
  {
    assert ([b] + rest)[1..] == rest;
  }

  lemma Follow(b: Byte, rest: seq<Byte>, p: Pending)
    requires Sound(p) && p.left > 0 && p.lower <= b <= p.upper
    ensures var bits := p.bits * 64 + (b - 0x80);
            Decode([b] + rest, p)
              == if p.left == 1 then [bits] + Decode(rest, NONE)
                else Decode(rest, Pending(bits, p.left - 1, 0x80, 0xBF))
  {
    assert ([b] + rest)[1..] == rest;
  }

  lemma DecodeOne(c: Scalar, rest: seq<Byte>)
    ensures Decode(EncodeOne(c) + rest, NONE) == [c] + Decode(rest, NONE)
  {
    if c < 0x80 {
      Lead(c, rest);
    } else if c < 0x800 {
      var b0, b1 := 0xC0 + c / 64, 0x80 + c % 64;
      assert EncodeOne(c) + rest == [b0] + ([b1] + rest);
      hide Decode, EncodeOne;
      Lead(b0, [b1] + rest);
      Decode2(c, b0, b1, rest);
    } else if c < 0x10000 {
      Decode3(c, rest);
    } else {
      Decode4(c, rest);
    }
  }

  lemma Decode2(c: Scalar, b0: Byte, b1: Byte, rest: seq<Byte>)
    requires 0x80 <= c < 0x800 && b0 == 0xC0 + c / 64 && b1 == 0x80 + c % 64
    ensures Decode([b1] + rest, Pending(b0 - 0xC0, 1, 0x80, 0xBF)) == [c] + Decode(rest, NONE)
  {
    Follow(b1, rest, Pending(b0 - 0xC0, 1, 0x80, 0xBF));
    hide Decode;
  }

  lemma Digits(c: nat)
    ensures c / 4096 * 64 + c / 64 % 64 == c / 64 && c / 262144 * 64 + c / 4096 % 64 == c / 4096
    ensures c / 64 * 64 + c % 64 == c
  {
  }

  lemma Decode3(c: Scalar, rest: seq<Byte>)
    requires 0x800 <= c < 0x10000
    ensures Decode(EncodeOne(c) + rest, NONE) == [c] + Decode(rest, NONE)
  {
    var b0, b1, b2 := 0xE0 + c / 4096, 0x80 + c / 64 % 64, 0x80 + c % 64;
    assert EncodeOne(c) + rest == [b0] + ([b1] + ([b2] + rest));
    hide Decode, EncodeOne;
    Lead(b0, [b1] + ([b2] + rest));
    Digits(c);
    Follow(b1, [b2] + rest,
      Pending(b0 - 0xE0, 2, if b0 == 0xE0 then 0xA0 else 0x80, if b0 == 0xED then 0x9F else 0xBF));
    Follow(b2, rest, Pending(c / 64, 1, 0x80, 0xBF));
  }

  lemma Decode4(c: Scalar, rest: seq<Byte>)
    requires 0x10000 <= c
    ensures Decode(EncodeOne(c) + rest, NONE) == [c] + Decode(rest, NONE)
  {
    var b0, b1, b2, b3 := 0xF0 + c / 262144, 0x80 + c / 4096 % 64, 0x80 + c / 64 % 64, 0x80 + c % 64;
    assert EncodeOne(c) + rest == [b0] + ([b1] + ([b2] + ([b3] + rest)));
    hide Decode, EncodeOne;
    Lead(b0, [b1] + ([b2] + ([b3] + rest)));
    Digits(c);
    Follow(b1, [b2] + ([b3] + rest),
      Pending(b0 - 0xF0, 3, if b0 == 0xF0 then 0x90 else 0x80, if b0 == 0xF4 then 0x8F else 0xBF));
    Follow(b2, [b3] + rest, Pending(c / 4096, 2, 0x80, 0xBF));
    Follow(b3, rest, Pending(c / 64, 1, 0x80, 0xBF));
  }

  /** Text is read back from its encoding. */
  lemma {:induction false} DecodeEncode(text: Text)
    ensures Decode(Encode(text), NONE) == text
  {
    if text != [] {
      DecodeEncode(text[1..]);
      DecodeOne(text[0], Encode(text[1..]));
    }
    hide Decode, EncodeOne;
  }

  lemma {:induction false} EncodeAscii(text: Text)
    requires forall i :: 0 <= i < |text| ==> text[i] < 0x80
    ensures |Encode(text)| == |text| && forall i :: 0 <= i < |text| ==> Encode(text)[i] == text[i]
  {
    if text != [] {
      EncodeAscii(text[1..]);
    }
  }
}
