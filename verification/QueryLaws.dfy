/** How any query is read, also one that no serializer wrote: section 5.1 of the URL Standard, which router.tsx runs. */
module QueryLaws {
  import opened Basics
  import opened Query
  import opened Utf8

  // ---------------------------------------------------------------- escapes

  /** The hexadecimal digit for a number, in either case. */
  predicate IsHexOf(b: Byte, n: int) {
    (0 <= n < 10 && b == 0x30 + n) || (10 <= n < 16 && (b == 0x41 + (n - 10) || b == 0x61 + (n - 10)))
  }

  predicate IsHex(b: Byte) {
    0x30 <= b <= 0x39 || 0x41 <= b <= 0x46 || 0x61 <= b <= 0x66
  }

  lemma HexExactly(b: Byte, n: int)
    requires 0 <= n
    ensures HexValue(b) == n <==> IsHexOf(b, n)
    ensures HexValue(b) >= 0 <==> IsHex(b)
  {
  }

  /** A plus sign, a percent sign with two digits, or a byte by itself. */
  datatype Item = Plus | Escaped(high: Byte, low: Byte) | Plain(b: Byte)

  function ItemText(item: Item): seq<Byte> {
    match item
    case Plus => [PLUS]
    case Escaped(high, low) => [PERCENT, high, low]
    case Plain(b) => [b]
  }

  function Spelling(items: seq<Item>): seq<Byte> {
    if items == [] then [] else ItemText(items[0]) + Spelling(items[1..])
  }

  /** A plus sign or a percent sign with two digits is never just bytes. */
  predicate Fits(item: Item, rest: seq<Byte>) {
    match item
    case Plus => true
    case Escaped(high, low) => IsHex(high) && IsHex(low)
    case Plain(b) => b != PLUS && !(b == PERCENT && |rest| >= 2 && IsHex(rest[0]) && IsHex(rest[1]))
  }

  predicate WellSpelt(items: seq<Item>) {
    items == [] || (Fits(items[0], Spelling(items[1..])) && WellSpelt(items[1..]))
  }

  /** A plus sign stands for a space, and an escape for the byte with that number. */
  predicate StandsFor(item: Item, byte: Byte) {
    match item
    case Plus => byte == SPACE
    case Escaped(high, low) => IsHexOf(high, byte / 16) && IsHexOf(low, byte % 16)
    case Plain(b) => byte == b
  }

  predicate StandFor(items: seq<Item>, bytes: seq<Byte>) {
    |bytes| == |items| && forall i :: 0 <= i < |items| ==> StandsFor(items[i], bytes[i])
  }

  lemma StandForFirst(items: seq<Item>, b: Byte, bytes: seq<Byte>)
    requires items != [] && StandFor(items[1..], bytes)
    requires StandsFor(items[0], b)
    ensures StandFor(items, [b] + bytes)
  {
    hide StandsFor;
    assert forall i :: 1 <= i < |items| ==> items[i] == items[1..][i - 1];
  }

  lemma UnescapeStep(item: Item, rest: seq<Byte>)
    requires Fits(item, rest)
    ensures Unescape(ItemText(item) + rest)
         == [if item.Plus? then SPACE else if item.Plain? then item.b
             else HexValue(item.high) * 16 + HexValue(item.low)]
            + Unescape(rest)
  {
    var s := ItemText(item) + rest;
    match item
    case Plus => assert s[1..] == rest;
    case Escaped(high, low) => assert s[1] == high && s[2] == low && s[3..] == rest;
    case Plain(b) => assert s[1..] == rest && (|rest| >= 1 ==> s[1] == rest[0]) && (|rest| >= 2 ==> s[2] == rest[1]);
  }

  /** However the escapes are written, in either case of the digits, they are read as the bytes with those numbers. */
  lemma {:induction false} UnescapeExactly(items: seq<Item>)
    requires WellSpelt(items)
    ensures StandFor(items, Unescape(Spelling(items)))
  {
    if items != [] {
      var item, rest := items[0], items[1..];
      UnescapeExactly(rest);
      UnescapeStep(item, Spelling(rest));
      var b := FirstByte(item, Spelling(rest));
      StandForFirst(items, b, Unescape(Spelling(rest)));
      hide Unescape, StandFor, WellSpelt, Fits, StandsFor, HexValue;
    }
  }

  lemma FirstByte(item: Item, rest: seq<Byte>) returns (b: Byte)
    requires Fits(item, rest)
    ensures StandsFor(item, b)
    ensures b == if item.Plus? then SPACE else if item.Plain? then item.b
                 else HexValue(item.high) * 16 + HexValue(item.low)
  {
    match item
    case Plus => b := SPACE;
    case Escaped(high, low) =>
      HexExactly(high, HexValue(high));
      HexExactly(low, HexValue(low));
      b := HexValue(high) * 16 + HexValue(low);
    case Plain(c) => b := c;
  }

  /** Every text can be read so. */
  lemma {:induction false} ReadsAsItems(bytes: seq<Byte>) returns (items: seq<Item>)
    ensures WellSpelt(items) && Spelling(items) == bytes
    decreases |bytes|
  {
    if bytes == [] {
      items := [];
    } else {
      var escape := bytes[0] == PERCENT && |bytes| > 2 && IsHex(bytes[1]) && IsHex(bytes[2]);
      var item := if bytes[0] == PLUS then Plus else if escape then Escaped(bytes[1], bytes[2]) else Plain(bytes[0]);
      var n := |ItemText(item)|;
      var rest := ReadsAsItems(bytes[n..]);
      items := [item] + rest;
      assert items[1..] == rest && ItemText(item) == bytes[..n];
      hide IsHex, WellSpelt, Spelling;
      assert Fits(item, bytes[n..]);
      ItemsStep(items);
      assert bytes == bytes[..n] + bytes[n..];
    }
  }

  lemma ItemsStep(items: seq<Item>)
    requires items != []
    ensures Spelling(items) == ItemText(items[0]) + Spelling(items[1..])
    ensures Fits(items[0], Spelling(items[1..])) && WellSpelt(items[1..]) ==> WellSpelt(items)
  {
  }

  // ---------------------------------------------------------------- pairs

  function Joined(parts: seq<seq<Byte>>): seq<Byte> {
    if parts == [] then [] else if |parts| == 1 then parts[0] else parts[0] + ([AMPERSAND] + Joined(parts[1..]))
  }

  /** The parts that are not empty, each read as a pair. */
  function PairsOfParts(parts: seq<seq<Byte>>): seq<Pair> {
    if parts == [] then []
    else (if parts[0] == [] then [] else [PairOf(parts[0])]) + PairsOfParts(parts[1..])
  }

  lemma ParseEmptyFirst(rest: seq<Byte>)
    ensures ParsePairs([AMPERSAND] + rest) == ParsePairs(rest)
  {
    var s := [AMPERSAND] + rest;
    assert Until(s, AMPERSAND) == 0 && s[1..] == rest;
    assert [] + ParsePairs(rest) == ParsePairs(rest);
  }

  /** A query is read as what is between its ampersands, in order, without what is empty. */
  lemma {:induction false} ParseParts(parts: seq<seq<Byte>>)
    requires forall i :: 0 <= i < |parts| ==> AMPERSAND !in parts[i]
    ensures ParsePairs(Joined(parts)) == PairsOfParts(parts)
  {
    if parts == [] {
      ParseLast([]);
    } else {
      var first, rest := parts[0], parts[1..];
      assert Joined(parts) == if |parts| == 1 then first else first + ([AMPERSAND] + Joined(rest));
      assert PairsOfParts(parts) == (if first == [] then [] else [PairOf(first)]) + PairsOfParts(rest);
      assert |parts| == 1 ==> PairsOfParts(rest) == [];
      hide *;
      if |parts| == 1 {
        ParseLast(first);
      } else {
        ParseParts(rest);
        if first == [] {
          ParseEmptyFirst(Joined(rest));
          assert first + ([AMPERSAND] + Joined(rest)) == [AMPERSAND] + Joined(rest);
        } else {
          ParseFirst(first, Joined(rest));
        }
      }
    }
  }

  /** A pair is split at its first equals sign; without one, it is a name with an empty value. */
  lemma PairExactly(name: seq<Byte>, value: seq<Byte>)
    requires EQUALS !in name
    ensures PairOf(name + ([EQUALS] + value)) == Pair(Decode(Unescape(name), NONE), Decode(Unescape(value), NONE))
    ensures PairOf(name) == Pair(Decode(Unescape(name), NONE), [])
  {
    UntilEnd(name, EQUALS);
    assert name[..|name|] == name && Unescape([]) == [] && Decode([], NONE) == [];
    hide Decode, Unescape;
    UntilMark(name, EQUALS, value);
    Halves(name, EQUALS, value);
    PairOfAt(name + ([EQUALS] + value), |name|);
    assert PairOf(name) == Pair(Decode(Unescape(name), NONE), Decode(Unescape([]), NONE)) by {
      PairOfWhole(name);
    }
  }

  lemma PairOfWhole(name: seq<Byte>)
    requires Until(name, EQUALS) == |name| && name[..|name|] == name
    ensures PairOf(name) == Pair(Decode(Unescape(name), NONE), Decode(Unescape([]), NONE))
  {
    hide Decode, Unescape, Until;
  }

  // ---------------------------------------------------------------- malformed text

  /** A byte that starts no character becomes one replacement character. */
  lemma StrayByte(b: Byte, rest: seq<Byte>)
    requires 0x80 <= b < 0xC2 || 0xF4 < b
    ensures Decode([b] + rest, NONE) == [REPLACEMENT] + Decode(rest, NONE)
  {
    assert ([b] + rest)[1..] == rest;
  }

  predicate Continues(bytes: seq<Byte>) {
    bytes != [] && 0x80 <= bytes[0] <= 0xBF
  }

  lemma CutOff(bytes: seq<Byte>, p: Pending)
    requires Sound(p) && p.left > 0 && !Continues(bytes)
    ensures Decode(bytes, p) == [REPLACEMENT] + Decode(bytes, NONE)
  {
  }

  lemma CutAfterSecond(c: Scalar, k: nat, rest: seq<Byte>)
    requires 1 < k < |EncodeOne(c)| && !Continues(rest)
    ensures Decode(EncodeOne(c)[1..k] + rest, Started(c)) == [REPLACEMENT] + Decode(rest, NONE)
  {
    var bytes, p := EncodeOne(c), Started(c);
    var tail := bytes[2..k] + rest;
    assert bytes[1..k] + rest == [bytes[1]] + tail;
    SecondFits(c);
    hide Decode, Started, EncodeOne;
    Follow(bytes[1], tail, p);
    var q := Pending(p.bits * 64 + (bytes[1] - 0x80), p.left - 1, 0x80, 0xBF);
    if k == 2 {
      assert tail == rest;
      CutOff(rest, q);
    } else {
      assert k == 3 && tail == [bytes[2]] + rest;
      Follow(bytes[2], rest, q);
      CutOff(rest, Pending(q.bits * 64 + (bytes[2] - 0x80), q.left - 1, 0x80, 0xBF));
    }
  }

  /** A character that is cut short becomes one replacement character, and reading goes on after it. */
  lemma CutShort(c: Scalar, k: nat, rest: seq<Byte>)
    requires 0 < k < |EncodeOne(c)| && !Continues(rest)
    ensures Decode(EncodeOne(c)[..k] + rest, NONE) == [REPLACEMENT] + Decode(rest, NONE)
  {
    var bytes := EncodeOne(c);
    var tail := bytes[1..k] + rest;
    assert bytes[..k] + rest == [bytes[0]] + tail;
    LeadsTo(c, tail);
    hide Decode;
    if k == 1 {
      assert tail == rest;
      CutOff(rest, Started(c));
    } else {
      CutAfterSecond(c, k, rest);
    }
  }

  /** What has been read once the first byte of a longer character has. */
  function Started(c: Scalar): (p: Pending)
    requires c >= 0x80
    ensures Sound(p) && p.left == |EncodeOne(c)| - 1
  {
    if c < 0x800 then Pending(c / 64, 1, 0x80, 0xBF)
    else if c < 0x10000 then
      Pending(c / 4096, 2, if c / 4096 == 0 then 0xA0 else 0x80, if c / 4096 == 13 then 0x9F else 0xBF)
    else Pending(c / 262144, 3, if c / 262144 == 0 then 0x90 else 0x80, if c / 262144 == 4 then 0x8F else 0xBF)
  }

  lemma LeadsTo(c: Scalar, tail: seq<Byte>)
    requires c >= 0x80
    ensures Decode([EncodeOne(c)[0]] + tail, NONE) == Decode(tail, Started(c))
  {
    Lead(EncodeOne(c)[0], tail);
    hide Decode;
  }

  /** The second byte is in the range the first one leaves, and what has been read then can still become a character. */
  predicate GoesOn(c: Scalar)
    requires c >= 0x800
  {
    var p, b := Started(c), EncodeOne(c)[1];
    var bits := p.bits * 64 + (b - 0x80);
    && p.lower <= b <= p.upper && 0x80 <= EncodeOne(c)[2] <= 0xBF && |EncodeOne(c)| <= 4
    && Sound(Pending(bits, p.left - 1, 0x80, 0xBF))
    && (p.left == 3 ==> Sound(Pending(bits * 64 + (EncodeOne(c)[2] - 0x80), 1, 0x80, 0xBF)))
  }

  lemma SecondOfThree(c: Scalar)
    requires 0x800 <= c < 0x10000
    ensures GoesOn(c)
  {
    Digits(c);
    assert Started(c).bits * 64 + c / 64 % 64 == c / 64;
  }

  lemma SecondOfFour(c: Scalar)
    requires 0x10000 <= c
    ensures GoesOn(c)
  {
    Digits(c);
    assert Started(c).bits * 64 + c / 4096 % 64 == c / 4096;
  }

  lemma SecondFits(c: Scalar)
    requires c >= 0x800
    ensures GoesOn(c)
  {
    hide GoesOn;
    if c < 0x10000 {
      SecondOfThree(c);
    } else {
      SecondOfFour(c);
    }
  }

  /**
   * A second byte that would spell a character with too many bytes, a surrogate, or too large a number is no part of
   * it.
   */
  lemma NoSuchCharacter(b: Byte, second: Byte, rest: seq<Byte>)
    requires || (b == 0xE0 && 0x80 <= second < 0xA0) || (b == 0xED && 0xA0 <= second <= 0xBF)
             || (b == 0xF0 && 0x80 <= second < 0x90) || (b == 0xF4 && 0x90 <= second <= 0xBF)
    ensures Decode([b] + ([second] + rest), NONE) == [REPLACEMENT] + ([REPLACEMENT] + Decode(rest, NONE))
  {
    Lead(b, [second] + rest);
    StrayByte(second, rest);
  }

  // ---------------------------------------------------------------- records

  /** The places of a name. */
  function Places(pairs: seq<Pair>, name: Text): set<nat> {
    set i: nat | i < |pairs| && pairs[i].name == name
  }

  /** The values of a name are those at its places, in order. */
  lemma {:induction false} ValuesAreThere(pairs: seq<Pair>, name: Text, i: nat)
    requires i < |pairs| && pairs[i].name == name
    ensures |ValuesFor(pairs[..i], name)| < |ValuesFor(pairs, name)| == |Places(pairs, name)|
    ensures ValuesFor(pairs, name)[|ValuesFor(pairs[..i], name)|] == pairs[i].value
  {
    assert pairs == pairs[..i] + ([pairs[i]] + pairs[i + 1..]);
    ValuesCount(pairs, name);
    ValuesForConcat(pairs[..i], [pairs[i]] + pairs[i + 1..], name);
    ValuesForConcat([pairs[i]], pairs[i + 1..], name);
    assert ValuesFor([pairs[i]], name) == [pairs[i].value] by {
      ValuesForMore([], pairs[i], name);
      assert [] + [pairs[i]] == [pairs[i]] && ValuesFor([], name) == [];
    }
    hide ValuesFor, Places;
  }

  lemma {:induction false} ValuesCount(pairs: seq<Pair>, name: Text)
    ensures |ValuesFor(pairs, name)| == |Places(pairs, name)|
  {
    if pairs != [] {
      var n: nat := |pairs| - 1;
      ValuesCount(pairs[..n], name);
      assert Places(pairs, name) == Places(pairs[..n], name) + if pairs[n].name == name then {n} else {};
    } else {
      assert Places(pairs, name) == {};
    }
  }

  /** A name that comes once has a text, one that comes more often the list of its texts, and other names nothing. */
  lemma RecordExactly(pairs: seq<Pair>, name: Text)
    ensures var count := |Places(pairs, name)|;
            && (name in Record(pairs) <==> count > 0) && |ValuesFor(pairs, name)| == count
            && (count == 1 ==> Record(pairs)[name] == One(ValuesFor(pairs, name)[0]))
            && (count > 1 ==> Record(pairs)[name] == Many(ValuesFor(pairs, name)))
  {
    ValuesCount(pairs, name);
    RecordHas(pairs, name);
    hide Record, ValuesFor, Places;
  }

  /** What is printed: a question mark and the pairs, or nothing at all without pairs. */
  lemma PrintedExactly(pairs: seq<Pair>)
    ensures Printed(pairs) == if pairs == [] then [] else [0x3F] + Serialize(pairs)
  {
    FirstSerialized(pairs);
    hide Serialize;
  }

  // ---------------------------------------------------------------- array indices

  /** A number as JavaScript writes it. */
  function DecimalText(n: nat): Text {
    if n < 10 then [0x30 + n] else DecimalText(n / 10) + [0x30 + n % 10]
  }

  lemma {:induction false} DecimalIsIndexText(n: nat)
    ensures var key := DecimalText(n);
            && key != [] && (forall i :: 0 <= i < |key| ==> IsDigit(key[i])) && Number(key) == n
            && (key[0] == 0x30 ==> n == 0 && |key| == 1)
  {
    var key := DecimalText(n);
    if n < 10 {
      assert key[..0] == [] && Number([]) == 0;
    } else {
      DecimalIsIndexText(n / 10);
      assert key[..|key| - 1] == DecimalText(n / 10);
      assert key[0] == DecimalText(n / 10)[0];
    }
  }

  lemma {:induction false} TextIsDecimal(key: Text)
    requires key != [] && (forall i :: 0 <= i < |key| ==> IsDigit(key[i])) && (key[0] == 0x30 ==> |key| == 1)
    ensures key == DecimalText(Number(key)) && (key != [0x30] ==> Number(key) > 0)
  {
    var n := |key| - 1;
    var rest := key[..n];
    if n == 0 {
      assert rest == [] && Number(rest) == 0;
    } else {
      TextIsDecimal(rest);
      assert rest != [0x30] && Number(key) == Number(rest) * 10 + DigitValue(key[n]);
      assert Number(key) / 10 == Number(rest) && Number(key) % 10 == DigitValue(key[n]);
      assert key == rest + [key[n]];
    }
  }

  /** The keys that come first are those that are written as a number under 4294967295. */
  lemma IndexExactly(key: Text)
    ensures IsIndex(key) <==> exists n: nat :: n < 4294967295 && key == DecimalText(n)
    ensures IsIndex(key) ==> key == DecimalText(Number(key))
  {
    if IsIndex(key) {
      TextIsDecimal(key);
    }
    forall n: nat | key == DecimalText(n)
      ensures n < 4294967295 ==> IsIndex(key)
    {
      DecimalIsIndexText(n);
    }
    hide DecimalText, Number;
  }

  // ---------------------------------------------------------------- the serializer

  /**
   * What is written for each byte: letters, digits and four marks for themselves, a plus sign for a space, an escape.
   */
  lemma WrittenByte(b: Byte)
    ensures var letter := 0x41 <= b <= 0x5A || 0x61 <= b <= 0x7A;
            var itself := letter || 0x30 <= b <= 0x39 || b in {0x2A, 0x2D, 0x2E, 0x5F};
            && (EscapeByte(b) == [b] <==> itself)
            && (EscapeByte(b) == [PLUS] <==> b == 0x20)
            && (!itself && b != 0x20 ==>
                && |EscapeByte(b)| == 3 && EscapeByte(b)[0] == 0x25
                && IsHexOf(EscapeByte(b)[1], b / 16) && EscapeByte(b)[1] < 0x61
                && IsHexOf(EscapeByte(b)[2], b % 16) && EscapeByte(b)[2] < 0x61)
  {
  }
}
