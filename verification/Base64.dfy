/** Canonical base64 and its URL form, sections 4 and 5 of RFC 4648: apps/push-relay/src/relay.ts and apns.ts. */
module Base64 {
  import opened Basics

  type Bytes = seq<Byte>
  type Sextet = n: int | 0 <= n < 64

  function Digit(n: Sextet): char {
    if n < 26 then (n + 65) as char
    else if n < 52 then (n + 71) as char
    else if n < 62 then (n - 4) as char
    else if n == 62 then '+'
    else '/'
  }

  predicate IsDigit(c: char) {
    'A' <= c <= 'Z' || 'a' <= c <= 'z' || '0' <= c <= '9' || c == '+' || c == '/'
  }

  function Value(c: char): (n: Sextet)
    requires IsDigit(c)
    ensures Digit(n) == c
  {
    if 'A' <= c <= 'Z' then c as int - 65
    else if 'a' <= c <= 'z' then c as int - 71
    else if '0' <= c <= '9' then c as int + 4
    else if c == '+' then 62
    else 63
  }

  lemma DigitValue(n: Sextet)
    ensures IsDigit(Digit(n)) && Value(Digit(n)) == n
  {
  }

  /** `btoa` of the bytes. */
  function Encode(b: Bytes): string {
    if |b| == 0 then ""
    else if |b| == 1 then [Digit(b[0] / 4), Digit(b[0] % 4 * 16), '=', '=']
    else if |b| == 2 then [Digit(b[0] / 4), Digit(b[0] % 4 * 16 + b[1] / 16), Digit(b[1] % 16 * 4), '=']
    else
      [Digit(b[0] / 4), Digit(b[0] % 4 * 16 + b[1] / 16), Digit(b[1] % 16 * 4 + b[2] / 64), Digit(b[2] % 64)]
      + Encode(b[3..])
  }

  /** The language of the `base64` pattern: groups of four digits, then at most one padded group. */
  predicate Matches(v: string) {
    if |v| == 0 then true
    else if |v| < 4 || !IsDigit(v[0]) || !IsDigit(v[1]) then false
    else if IsDigit(v[2]) && IsDigit(v[3]) then Matches(v[4..])
    else |v| == 4 && v[3] == '=' && (v[2] == '=' || IsDigit(v[2]))
  }

  /** `atob` of a string of that language. It ignores the low bits of the last digit of a padded group. */
  function Decode(v: string): Bytes
    requires Matches(v)
  {
    if |v| == 0 then []
    else
      var a, b := Value(v[0]), Value(v[1]);
      var first := a * 4 + b / 16;
      if v[2] == '=' then [first]
      else
        var c := Value(v[2]);
        var second := b % 16 * 16 + c / 4;
        if v[3] == '=' then [first, second]
        else [first, second, c % 4 * 64 + Value(v[3])] + Decode(v[4..])
  }

  function EncodedLength(bytes: nat): nat {
    (bytes + 2) / 3 * 4
  }

  predicate Canonical(v: string, min: nat, max: nat) {
    && |v| <= EncodedLength(max)
    && Matches(v)
    && var decoded := Decode(v);
       min <= |decoded| <= max && Encode(decoded) == v
  }

  /** Six bits at a time out of three bytes, and back. */
  lemma Sextets(x: Byte, y: Byte, z: Byte)
    ensures 0 <= x / 4 < 64 && 0 <= x % 4 * 16 + y / 16 < 64 && 0 <= y % 16 * 4 + z / 64 < 64 && 0 <= z % 64 < 64
    ensures x / 4 * 4 + (x % 4 * 16 + y / 16) / 16 == x
    ensures (x % 4 * 16 + y / 16) % 16 * 16 + (y % 16 * 4 + z / 64) / 4 == y
    ensures (y % 16 * 4 + z / 64) % 4 * 64 + z % 64 == z
  {
    assert (x % 4 * 16 + y / 16) / 16 == x % 4 && (x % 4 * 16 + y / 16) % 16 == y / 16;
    assert (y % 16 * 4 + z / 64) / 4 == y % 16 && (y % 16 * 4 + z / 64) % 4 == z / 64;
  }

  lemma DecodeShort(b: Bytes)
    requires 1 <= |b| <= 2
    ensures |Encode(b)| == 4 && Matches(Encode(b)) && Decode(Encode(b)) == b
  {
    var second := if |b| == 2 then b[1] else 0;
    Sextets(b[0], second, 0);
    DigitValue(b[0] / 4);
    DigitValue(b[0] % 4 * 16 + second / 16);
    DigitValue(second % 16 * 4);
  }

  lemma DecodeGroup(x: Byte, y: Byte, z: Byte, rest: string)
    requires Matches(rest)
    ensures var v := [Digit(x / 4), Digit(x % 4 * 16 + y / 16), Digit(y % 16 * 4 + z / 64), Digit(z % 64)] + rest;
            Matches(v) && Decode(v) == [x, y, z] + Decode(rest)
  {
    Sextets(x, y, z);
    DigitValue(x / 4);
    DigitValue(x % 4 * 16 + y / 16);
    DigitValue(y % 16 * 4 + z / 64);
    DigitValue(z % 64);
    var v := [Digit(x / 4), Digit(x % 4 * 16 + y / 16), Digit(y % 16 * 4 + z / 64), Digit(z % 64)] + rest;
    assert v[4..] == rest;
  }

  lemma {:induction false} EncodeLength(b: Bytes)
    ensures |Encode(b)| == EncodedLength(|b|)
  {
    if |b| < 3 {
    } else {
      EncodeLength(b[3..]);
      assert EncodedLength(|b|) == EncodedLength(|b| - 3) + 4;
    }
  }

  /** Encoding stays in the language and is undone by decoding. */
  lemma {:induction false} DecodeEncode(b: Bytes)
    ensures Matches(Encode(b)) && Decode(Encode(b)) == b
  {
    if |b| == 0 {
    } else if |b| < 3 {
      DecodeShort(b);
    } else {
      DecodeEncode(b[3..]);
      DecodeGroup(b[0], b[1], b[2], Encode(b[3..]));
      assert b == [b[0], b[1], b[2]] + b[3..];
    }
  }

  /** Four digits are the bits of three bytes, the most significant first; of two or one, followed by zeros. */
  lemma DigitsAreBits(b: Bytes)
    requires b != []
    ensures var v := Encode(b);
            var x: int, y: int, z: int := b[0], if |b| > 1 then b[1] else 0, if |b| > 2 then b[2] else 0;
            && |v| >= 4 && IsDigit(v[0]) && IsDigit(v[1])
            && (if |b| > 1 then IsDigit(v[2]) else v[2] == '=') && (if |b| > 2 then IsDigit(v[3]) else v[3] == '=')
            && Value(v[0]) * 262144 + Value(v[1]) * 4096
               + (if |b| > 1 then Value(v[2]) * 64 else 0) + (if |b| > 2 then Value(v[3]) else 0)
               == x * 65536 + y * 256 + z
  {
    var x, y, z := b[0], if |b| > 1 then b[1] else 0, if |b| > 2 then b[2] else 0;
    Sextets(x, y, z);
    DigitValue(x / 4);
    DigitValue(x % 4 * 16 + y / 16);
    DigitValue(y % 16 * 4 + z / 64);
    DigitValue(z % 64);
    hide Value, Digit, IsDigit;
  }

  /** The check accepts exactly the encodings of the byte strings whose length is in bounds. */
  lemma CanonicalIffEncoding(v: string, min: nat, max: nat)
    ensures Canonical(v, min, max) <==> exists b: Bytes :: min <= |b| <= max && Encode(b) == v
  {
    hide Encode, Decode, Matches;
    if Canonical(v, min, max) {
      assert Encode(Decode(v)) == v;
    }
    forall b: Bytes | min <= |b| <= max && Encode(b) == v
      ensures Canonical(v, min, max)
    {
      DecodeEncode(b);
      EncodeLength(b);
      assert |Encode(b)| <= EncodedLength(max);
    }
  }

  // ---------------------------------------------------------------- the unpadded URL form

  function UrlChar(c: char): char {
    if c == '+' then '-' else if c == '/' then '_' else c
  }

  function PlainChar(c: char): char {
    if c == '-' then '+' else if c == '_' then '/' else c
  }

  /** What `base64url` makes of an encoding: `-` for `+`, `_` for `/`, and no padding. */
  function UrlForm(v: string): string {
    if v == "" then ""
    else (if v[0] == '=' then "" else [UrlChar(v[0])]) + UrlForm(v[1..])
  }

  function PlainForm(v: string): (r: string)
    ensures |r| == |v|
  {
    if v == "" then "" else [PlainChar(v[0])] + PlainForm(v[1..])
  }

  /** The `=` signs that take a length of `n` to the next multiple of four. */
  function Padding(n: nat): string
    decreases (4 - n % 4) % 4
  {
    if n % 4 == 0 then "" else "=" + Padding(n + 1)
  }

  function Repadded(v: string): string {
    PlainForm(v) + Padding(|v|)
  }

  /** The re-padding of `AlertPushTarget.isValid`, which appends `(4 - count % 4) % 4` padding characters. */
  method Repad(v: string) returns (encoded: string)
    ensures encoded == Repadded(v)
  {
    encoded := PlainForm(v);
    var missing := (4 - |encoded| % 4) % 4;
    var count: nat := |encoded|;
    while missing > 0
      invariant 0 <= missing < 4
      invariant count % 4 == (4 - missing) % 4
      invariant encoded + Padding(count) == PlainForm(v) + Padding(|v|)
    {
      assert Padding(count) == "=" + Padding(count + 1);
      assert encoded + ("=" + Padding(count + 1)) == encoded + "=" + Padding(count + 1);
      encoded := encoded + "=";
      count := count + 1;
      missing := missing - 1;
    }
  }

  lemma UrlCharRoundTrip(c: char)
    requires IsDigit(c)
    ensures PlainChar(UrlChar(c)) == c && c != '='
  {
  }

  lemma {:induction false} PaddingStep(n: nat)
    ensures Padding(n + 4) == Padding(n)
    decreases (4 - n % 4) % 4
  {
    if n % 4 == 0 {
    } else {
      PaddingStep(n + 1);
    }
  }

  lemma {:induction false} UrlFormConcat(a: string, b: string)
    ensures UrlForm(a + b) == UrlForm(a) + UrlForm(b)
  {
    if a == "" {
      assert a + b == b;
    } else {
      var head := if a[0] == '=' then "" else [UrlChar(a[0])];
      var x, y := UrlForm(a[1..]), UrlForm(b);
      UrlFormConcat(a[1..], b);
      assert (a + b)[0] == a[0] && (a + b)[1..] == a[1..] + b;
      assert UrlForm(a + b) == head + (x + y) && UrlForm(a) == head + x;
      hide *;
      assert head + (x + y) == (head + x) + y;
    }
  }

  lemma {:induction false} PlainFormConcat(a: string, b: string)
    ensures PlainForm(a + b) == PlainForm(a) + PlainForm(b)
  {
    if a == "" {
      assert a + b == b;
    } else {
      hide PlainChar;
      PlainFormConcat(a[1..], b);
      assert (a + b)[0] == a[0] && (a + b)[1..] == a[1..] + b;
    }
  }

  /** Without padding, the two character maps undo each other. */
  lemma {:induction false} UrlFormDigits(v: string)
    requires forall i :: 0 <= i < |v| ==> IsDigit(v[i])
    ensures |UrlForm(v)| == |v| && PlainForm(UrlForm(v)) == v
  {
    if v == "" {
    } else {
      UrlCharRoundTrip(v[0]);
      UrlFormDigits(v[1..]);
      var head, tail := [UrlChar(v[0])], UrlForm(v[1..]);
      assert (head + tail)[1..] == tail;
    }
  }

  lemma UrlFormGroup(v: string, rest: string)
    requires |v| == 4 && forall i :: 0 <= i < 4 ==> IsDigit(v[i])
    ensures Repadded(UrlForm(v + rest)) == v + Repadded(UrlForm(rest))
  {
    UrlFormConcat(v, rest);
    UrlFormDigits(v);
    PlainFormConcat(UrlForm(v), UrlForm(rest));
    PaddingStep(|UrlForm(rest)|);
  }

  lemma UrlFormPadded(v: string)
    requires |v| == 4 && IsDigit(v[0]) && IsDigit(v[1]) && v[3] == '=' && (v[2] == '=' || IsDigit(v[2]))
    ensures Repadded(UrlForm(v)) == v
  {
    var digits := if v[2] == '=' then v[..2] else v[..3];
    UrlFormConcat(digits, v[|digits|..]);
    UrlFormDigits(digits);
    assert v == digits + v[|digits|..];
    hide UrlChar, PlainChar, IsDigit, PlainForm;
    if v[2] == '=' {
      assert v[2..][1..] == v[3..] && v[3..][1..] == "";
      assert UrlForm(v[2..]) == "";
      assert Padding(2) == "=" + Padding(3) && Padding(3) == "=" + Padding(4);
      assert UrlForm(v) == UrlForm(digits);
    } else {
      assert v[3..][1..] == "";
      assert UrlForm(v[3..]) == "";
      assert Padding(3) == "=" + Padding(4);
      assert UrlForm(v) == UrlForm(digits);
    }
  }

  lemma {:induction false} RepadUndoesUrlForm(v: string)
    requires Matches(v)
    ensures Repadded(UrlForm(v)) == v
  {
    if |v| == 0 {
    } else if IsDigit(v[2]) && IsDigit(v[3]) {
      assert v == v[..4] + v[4..];
      RepadUndoesUrlForm(v[4..]);
      UrlFormGroup(v[..4], v[4..]);
    } else {
      UrlFormPadded(v);
    }
  }

  /** Stripping the padding and putting it back gives every byte string back. */
  lemma UrlRoundTrip(b: Bytes)
    ensures var encoded := Repadded(UrlForm(Encode(b)));
            Matches(encoded) && Decode(encoded) == b && Canonical(encoded, |b|, |b|)
  {
    DecodeEncode(b);
    EncodeLength(b);
    RepadUndoesUrlForm(Encode(b));
  }

  // ---------------------------------------------------------------- the URL form as the relay makes it

  predicate IsUrlDigit(c: char) {
    'A' <= c <= 'Z' || 'a' <= c <= 'z' || '0' <= c <= '9' || c == '-' || c == '_'
  }

  /** The bytes as a binary string: one character for each. */
  function Binary(bytes: Bytes): string {
    if bytes == [] then "" else Binary(bytes[..|bytes| - 1]) + [bytes[|bytes| - 1] as char]
  }

  predicate IsBinary(s: string) {
    forall i :: 0 <= i < |s| ==> s[i] as int < 256
  }

  function CharCodes(s: string): (bytes: Bytes)
    requires IsBinary(s)
    ensures |bytes| == |s| && forall i :: 0 <= i < |s| ==> bytes[i] == s[i] as int
  {
    if s == "" then [] else CharCodes(s[..|s| - 1]) + [s[|s| - 1] as int]
  }

  /** `btoa(s)`, which throws for any other string. */
  function Btoa(s: string): string
    requires IsBinary(s)
  {
    Encode(CharCodes(s))
  }

  /** `s.replaceAll(c, into)` */
  function ReplaceAll(s: string, c: char, into: string): string {
    if s == "" then "" else (if s[0] == c then into else [s[0]]) + ReplaceAll(s[1..], c, into)
  }

  lemma {:induction false} BinaryCodes(bytes: Bytes)
    ensures |Binary(bytes)| == |bytes| && IsBinary(Binary(bytes)) && CharCodes(Binary(bytes)) == bytes
  {
    if bytes == [] {
    } else {
      var n := |bytes| - 1;
      var rest := Binary(bytes[..n]);
      BinaryCodes(bytes[..n]);
      assert Binary(bytes)[..n] == rest && Binary(bytes)[n] as int == bytes[n];
      assert bytes == bytes[..n] + [bytes[n]];
    }
  }

  lemma {:induction false} ReplaceConcat(a: string, b: string, c: char, into: string)
    ensures ReplaceAll(a + b, c, into) == ReplaceAll(a, c, into) + ReplaceAll(b, c, into)
  {
    if a == "" {
      assert a + b == b;
    } else {
      var head := if a[0] == c then into else [a[0]];
      var x, y := ReplaceAll(a[1..], c, into), ReplaceAll(b, c, into);
      assert (a + b)[0] == a[0] && (a + b)[1..] == a[1..] + b;
      assert ReplaceAll(a + b, c, into) == head + ReplaceAll(a[1..] + b, c, into) && ReplaceAll(a, c, into) == head + x;
      hide *;
      ReplaceConcat(a[1..], b, c, into);
      Regroup(head, x, y);
    }
  }

  lemma ReplaceOne(a: char, c: char, into: string)
    ensures ReplaceAll([a], c, into) == if a == c then into else [a]
  {
    assert [a][1..] == "";
    assert into + "" == into;
  }

  /** One pass after the other does what the URL form does to each character. */
  lemma {:induction false} PassesAreUrlForm(v: string)
    ensures ReplaceAll(ReplaceAll(ReplaceAll(v, '+', ['-']), '/', ['_']), '=', []) == UrlForm(v)
  {
    if v == "" {
    } else {
      var a, rest := v[0], v[1..];
      var plus, rest1 := if a == '+' then '-' else a, ReplaceAll(rest, '+', ['-']);
      var slash, rest2 := UrlChar(a), ReplaceAll(rest1, '/', ['_']);
      PassesAreUrlForm(rest);
      assert ReplaceAll(v, '+', ['-']) == [plus] + rest1;
      ReplaceOne(plus, '/', ['_']);
      ReplaceConcat([plus], rest1, '/', ['_']);
      ReplaceOne(slash, '=', []);
      ReplaceConcat([slash], rest2, '=', []);
    }
  }

  lemma {:induction false} UrlFormAlphabet(v: string)
    requires forall i :: 0 <= i < |v| ==> IsDigit(v[i]) || v[i] == '='
    ensures forall i :: 0 <= i < |UrlForm(v)| ==> IsUrlDigit(UrlForm(v)[i])
  {
    if v == "" {
    } else {
      UrlFormAlphabet(v[1..]);
    }
  }

  lemma {:induction false} MatchesAlphabet(v: string)
    requires Matches(v)
    ensures forall i :: 0 <= i < |v| ==> IsDigit(v[i]) || v[i] == '='
  {
    if |v| == 0 {
    } else if IsDigit(v[2]) && IsDigit(v[3]) {
      MatchesAlphabet(v[4..]);
      assert v == v[..4] + v[4..];
    }
  }

  lemma {:induction false} UrlFormOfPlain(r: string)
    requires forall i :: 0 <= i < |r| ==> IsUrlDigit(r[i])
    ensures UrlForm(PlainForm(r)) == r
  {
    if r == "" {
    } else {
      UrlFormOfPlain(r[1..]);
      assert PlainForm(r)[1..] == PlainForm(r[1..]);
    }
  }

  lemma {:induction false} NoPadding(n: nat)
    ensures UrlForm(Padding(n)) == ""
    decreases (4 - n % 4) % 4
  {
    if n % 4 == 0 {
    } else {
      NoPadding(n + 1);
      assert Padding(n)[1..] == Padding(n + 1);
    }
  }

  /** Of all strings in the URL alphabet, only the URL form of the bytes is re-padded to base64 of the bytes. */
  lemma UrlTextIsUnique(r: string, bytes: Bytes)
    requires forall i :: 0 <= i < |r| ==> IsUrlDigit(r[i])
    requires Canonical(Repadded(r), |bytes|, |bytes|) && Decode(Repadded(r)) == bytes
    ensures r == UrlForm(Encode(bytes))
  {
    assert Repadded(r) == Encode(bytes) && Repadded(r) == PlainForm(r) + Padding(|r|);
    hide *;
    UrlFormOfPlain(r);
    NoPadding(|r|);
    UrlFormConcat(PlainForm(r), Padding(|r|));
  }

  /**
   * The string has only characters of the URL alphabet, so it can stand in a token as it is, and padding it again
   * gives canonical base64 that decodes to the bytes. No other string has both properties (`UrlTextIsUnique`).
   */
  method Base64Url(bytes: Bytes) returns (r: string)
    ensures forall i :: 0 <= i < |r| ==> IsUrlDigit(r[i])
    ensures Canonical(Repadded(r), |bytes|, |bytes|) && Decode(Repadded(r)) == bytes
    ensures r == UrlForm(Encode(bytes))
  {
    var binary := "";
    for i := 0 to |bytes|
      invariant binary == Binary(bytes[..i])
    {
      assert bytes[..i + 1][..i] == bytes[..i];
      binary := binary + [bytes[i] as char];
    }
    assert bytes[..|bytes|] == bytes;
    BinaryCodes(bytes);
    hide *;
    r := ReplaceAll(ReplaceAll(ReplaceAll(Btoa(binary), '+', ['-']), '/', ['_']), '=', []);
    UrlOfBinary(bytes, binary);
  }

  lemma UrlOfBinary(bytes: Bytes, binary: string)
    requires IsBinary(binary) && CharCodes(binary) == bytes
    ensures var r := ReplaceAll(ReplaceAll(ReplaceAll(Btoa(binary), '+', ['-']), '/', ['_']), '=', []);
            && r == UrlForm(Encode(bytes))
            && (forall i :: 0 <= i < |r| ==> IsUrlDigit(r[i]))
            && Canonical(Repadded(r), |bytes|, |bytes|) && Decode(Repadded(r)) == bytes
  {
    assert Btoa(binary) == Encode(bytes);
    hide *;
    PassesAreUrlForm(Encode(bytes));
    DecodeEncode(bytes);
    MatchesAlphabet(Encode(bytes));
    UrlFormAlphabet(Encode(bytes));
    UrlRoundTrip(bytes);
  }
}
