/**
 * Query strings: apps/docs/src/router.tsx, `parseSearch` and `stringifySearch`, over the parser and serializer of
 * section 5 of the WHATWG URL Standard that `URLSearchParams` runs.
 */
module Query {
  import opened Basics
  import opened Utf8

  type Ascii = c: int | 0 <= c < 0x80

  const SPACE: Ascii := 0x20
  const PERCENT: Ascii := 0x25
  const AMPERSAND: Ascii := 0x26
  const PLUS: Ascii := 0x2B
  const EQUALS: Ascii := 0x3D
  const QUESTION: Ascii := 0x3F

  datatype Pair = Pair(name: Text, value: Text)

  // ---------------------------------------------------------------- the serializer, section 5.2

  /** What stands for itself. */
  predicate IsSafe(b: int) {
    b == 0x2A || b == 0x2D || b == 0x2E || 0x30 <= b <= 0x39 || 0x41 <= b <= 0x5A || b == 0x5F || 0x61 <= b <= 0x7A
  }

  function HexDigit(n: nat): Ascii
    requires n < 16
  {
    if n < 10 then 0x30 + n else 0x41 + n - 10
  }

  function EscapeByte(b: Byte): seq<Ascii> {
    if b == SPACE then [PLUS] else if IsSafe(b) then [b] else [PERCENT, HexDigit(b / 16), HexDigit(b % 16)]
  }

  function Escape(bytes: seq<Byte>): seq<Ascii> {
    if bytes == [] then [] else EscapeByte(bytes[0]) + Escape(bytes[1..])
  }

  function SerializePair(p: Pair): seq<Ascii> {
    Escape(Encode(p.name)) + ([EQUALS] + Escape(Encode(p.value)))
  }

  function Serialize(pairs: seq<Pair>): seq<Ascii> {
    if pairs == [] then []
    else if |pairs| == 1 then SerializePair(pairs[0])
    else SerializePair(pairs[0]) + ([AMPERSAND] + Serialize(pairs[1..]))
  }

  // ---------------------------------------------------------------- the parser, section 5.1

  function HexValue(b: Byte): int {
    if 0x30 <= b <= 0x39 then b - 0x30
    else if 0x41 <= b <= 0x46 then b - 0x41 + 10
    else if 0x61 <= b <= 0x66 then b - 0x61 + 10
    else -1
  }

  /** Plus signs are spaces, and `%` with two hexadecimal digits is a byte. */
  function Unescape(bytes: seq<Byte>): seq<Byte> {
    if bytes == [] then []
    else if bytes[0] == PLUS then [SPACE] + Unescape(bytes[1..])
    else if bytes[0] == PERCENT && |bytes| > 2 && HexValue(bytes[1]) >= 0 && HexValue(bytes[2]) >= 0 then
      [HexValue(bytes[1]) * 16 + HexValue(bytes[2])] + Unescape(bytes[3..])
    else [bytes[0]] + Unescape(bytes[1..])
  }

  /** What comes before the first `b`. */
  function Until(bytes: seq<Byte>, b: Byte): (i: nat)
    ensures i <= |bytes| && (i < |bytes| ==> bytes[i] == b)
    ensures b !in bytes[..i]
  {
    if bytes == [] || bytes[0] == b then 0 else 1 + Until(bytes[1..], b)
  }

  function PairOf(bytes: seq<Byte>): Pair {
    var i := Until(bytes, EQUALS);
    Pair(Decode(Unescape(bytes[..i]), NONE), Decode(Unescape(if i < |bytes| then bytes[i + 1..] else []), NONE))
  }

  function ParsePairs(bytes: seq<Byte>): seq<Pair>
    decreases |bytes|
  {
    var i := Until(bytes, AMPERSAND);
    (if i > 0 then [PairOf(bytes[..i])] else []) + if i < |bytes| then ParsePairs(bytes[i + 1..]) else []
  }

  /** `new URLSearchParams(query)` */
  function Params(query: Text): seq<Pair> {
    ParsePairs(Encode(if query != [] && query[0] == QUESTION then query[1..] else query))
  }

  // ---------------------------------------------------------------- the parser undoes the serializer

  lemma EscapedByte(b: Byte, rest: seq<Byte>)
    ensures Unescape(EscapeByte(b) + rest) == [b] + Unescape(rest)
  {
    var s := EscapeByte(b) + rest;
    if b == SPACE || IsSafe(b) {
      assert s[1..] == rest;
    } else {
      assert s[3..] == rest && HexValue(s[1]) == b / 16 && HexValue(s[2]) == b % 16;
    }
  }

  lemma {:induction false} UnescapeEscape(bytes: seq<Byte>)
    ensures Unescape(Escape(bytes)) == bytes
  {
    if bytes != [] {
      UnescapeEscape(bytes[1..]);
      EscapedByte(bytes[0], Escape(bytes[1..]));
    }
    hide EscapeByte;
  }

  lemma {:induction false} EscapedHasNoMark(bytes: seq<Byte>)
    ensures AMPERSAND !in Escape(bytes) && EQUALS !in Escape(bytes)
    ensures Escape(bytes) != [] ==> Escape(bytes)[0] != QUESTION
  {
    if bytes != [] {
      EscapedHasNoMark(bytes[1..]);
    }
  }

  lemma {:induction false} UntilMark(before: seq<Byte>, b: Byte, rest: seq<Byte>)
    requires b !in before
    ensures Until(before + ([b] + rest), b) == |before|
  {
    var s := before + ([b] + rest);
    if before != [] {
      assert s[1..] == before[1..] + ([b] + rest);
      UntilMark(before[1..], b, rest);
    }
  }

  lemma {:induction false} UntilEnd(bytes: seq<Byte>, b: Byte)
    requires b !in bytes
    ensures Until(bytes, b) == |bytes|
  {
    if bytes != [] {
      UntilEnd(bytes[1..], b);
    }
  }

  lemma PairOfAt(bytes: seq<Byte>, i: nat)
    requires i < |bytes| && Until(bytes, EQUALS) == i
    ensures PairOf(bytes) == Pair(Decode(Unescape(bytes[..i]), NONE), Decode(Unescape(bytes[i + 1..]), NONE))
  {
    hide Decode, Unescape, Until;
  }

  lemma DecodeEscaped(text: Text)
    ensures Decode(Unescape(Escape(Encode(text))), NONE) == text
    ensures AMPERSAND !in Escape(Encode(text)) && EQUALS !in Escape(Encode(text))
    ensures Escape(Encode(text)) != [] ==> Escape(Encode(text))[0] != QUESTION
  {
    hide *;
    EscapedHasNoMark(Encode(text));
    UnescapeEscape(Encode(text));
    DecodeEncode(text);
  }

  lemma PairOfSerialized(p: Pair)
    ensures PairOf(SerializePair(p)) == p
    ensures SerializePair(p) != [] && AMPERSAND !in SerializePair(p) && SerializePair(p)[0] != QUESTION
  {
    var name, value := Escape(Encode(p.name)), Escape(Encode(p.value));
    DecodeEscaped(p.name);
    DecodeEscaped(p.value);
    assert SerializePair(p) == name + ([EQUALS] + value);
    hide *;
    UntilMark(name, EQUALS, value);
    Halves(name, EQUALS, value);
    PairOfAt(SerializePair(p), |name|);
  }

  lemma ParsePairsAt(bytes: seq<Byte>, i: nat)
    requires 0 < i < |bytes| && Until(bytes, AMPERSAND) == i
    ensures ParsePairs(bytes) == [PairOf(bytes[..i])] + ParsePairs(bytes[i + 1..])
  {
    hide PairOf, Until;
  }

  lemma Halves<T>(first: seq<T>, mark: T, rest: seq<T>)
    ensures var s := first + ([mark] + rest); |first| < |s| && s[..|first|] == first && s[|first| + 1..] == rest
  {
  }

  lemma ParseFirst(first: seq<Byte>, rest: seq<Byte>)
    requires first != [] && AMPERSAND !in first
    ensures ParsePairs(first + ([AMPERSAND] + rest)) == [PairOf(first)] + ParsePairs(rest)
  {
    hide *;
    UntilMark(first, AMPERSAND, rest);
    Halves(first, AMPERSAND, rest);
    ParsePairsAt(first + ([AMPERSAND] + rest), |first|);
  }

  lemma ParseLast(last: seq<Byte>)
    requires AMPERSAND !in last
    ensures ParsePairs(last) == if last == [] then [] else [PairOf(last)]
  {
    UntilEnd(last, AMPERSAND);
    assert last[..|last|] == last;
    hide PairOf, Until;
  }

  lemma SerializeStep(pairs: seq<Pair>)
    ensures pairs == [] ==> Serialize(pairs) == []
    ensures |pairs| == 1 ==> Serialize(pairs) == SerializePair(pairs[0])
    ensures |pairs| > 1 ==> Serialize(pairs) == SerializePair(pairs[0]) + ([AMPERSAND] + Serialize(pairs[1..]))
  {
    hide SerializePair;
  }

  /** The parser undoes the serializer. */
  lemma {:induction false} ParseSerialize(pairs: seq<Pair>)
    ensures ParsePairs(Serialize(pairs)) == pairs
  {
    SerializeStep(pairs);
    hide *;
    if pairs == [] {
      ParseLast([]);
    } else {
      PairOfSerialized(pairs[0]);
      if |pairs| == 1 {
        ParseLast(SerializePair(pairs[0]));
      } else {
        ParseSerialize(pairs[1..]);
        ParseFirst(SerializePair(pairs[0]), Serialize(pairs[1..]));
        assert pairs == [pairs[0]] + pairs[1..];
      }
    }
  }

  lemma {:induction false} FirstSerialized(pairs: seq<Pair>)
    ensures Serialize(pairs) == [] <==> pairs == []
    ensures Serialize(pairs) != [] ==> Serialize(pairs)[0] != QUESTION
  {
    if pairs != [] {
      PairOfSerialized(pairs[0]);
    }
    hide SerializePair;
  }

  /** A query that was serialized is parsed to what was serialized, with and without its question mark. */
  lemma ParamsOfSerialized(pairs: seq<Pair>)
    ensures Params(Serialize(pairs)) == pairs && Params([QUESTION] + Serialize(pairs)) == pairs
  {
    var text: Text := Serialize(pairs);
    FirstSerialized(pairs);
    ParseSerialize(pairs);
    EncodeAscii(text);
    assert Encode(text) == Serialize(pairs);
    assert ([QUESTION] + text)[1..] == text;
    hide Encode, ParsePairs, Serialize;
  }

  // ---------------------------------------------------------------- records

  /** What a key holds. */
  datatype Value = Undefined | One(text: Text) | Many(texts: seq<Text>)

  function Items(v: Value): seq<Text> {
    match v
    case Undefined => []
    case One(text) => [text]
    case Many(texts) => texts
  }

  /** The value `parseSearch` keeps for a key that comes with these texts. */
  function Shape(texts: seq<Text>): Value {
    if |texts| == 1 then One(texts[0]) else Many(texts)
  }

  /** What comes under one name, in order. */
  function ValuesFor(pairs: seq<Pair>, name: Text): seq<Text> {
    if pairs == [] then []
    else
      var last := pairs[|pairs| - 1];
      ValuesFor(pairs[..|pairs| - 1], name) + if last.name == name then [last.value] else []
  }

  function Names(pairs: seq<Pair>): set<Text> {
    set i | 0 <= i < |pairs| :: pairs[i].name
  }

  /** Every name with its values in order. */
  function Record(pairs: seq<Pair>): map<Text, Value> {
    map name | name in Names(pairs) :: Shape(ValuesFor(pairs, name))
  }

  lemma {:induction false} ValuesForNames(pairs: seq<Pair>, name: Text)
    ensures name in Names(pairs) <==> ValuesFor(pairs, name) != []
  {
    if pairs == [] {
    } else {
      var n := |pairs| - 1;
      ValuesForNames(pairs[..n], name);
      assert name in Names(pairs) <==> name in Names(pairs[..n]) || pairs[n].name == name by {
        if name in Names(pairs) {
          var i :| 0 <= i < |pairs| && pairs[i].name == name;
          assert i < n ==> pairs[..n][i].name == name;
        }
        if name in Names(pairs[..n]) {
          var i :| 0 <= i < n && pairs[..n][i].name == name;
          assert pairs[i].name == name;
        }
      }
    }
  }

  lemma RecordHas(pairs: seq<Pair>, name: Text)
    ensures name in Record(pairs) <==> ValuesFor(pairs, name) != []
    ensures name in Record(pairs) ==> Record(pairs)[name] == Shape(ValuesFor(pairs, name))
  {
    ValuesForNames(pairs, name);
    hide ValuesFor, Names;
  }

  lemma ValuesForMore(pairs: seq<Pair>, p: Pair, name: Text)
    ensures ValuesFor(pairs + [p], name) == ValuesFor(pairs, name) + if p.name == name then [p.value] else []
  {
    assert (pairs + [p])[..|pairs|] == pairs;
  }

  /** The record with one pair more. */
  function With(search: map<Text, Value>, p: Pair): map<Text, Value> {
    search[p.name := if p.name !in search then One(p.value) else Many(Items(search[p.name]) + [p.value])]
  }

  lemma ShapeItems(texts: seq<Text>)
    ensures Items(Shape(texts)) == texts
    ensures |texts| >= 1 ==> forall t :: Shape(texts + [t]) == Many(texts + [t])
    ensures forall t :: Shape([] + [t]) == One(t)
  {
  }

  lemma WithHas(pairs: seq<Pair>, p: Pair, name: Text)
    ensures name in Record(pairs + [p]) <==> name in With(Record(pairs), p)
    ensures name in Record(pairs + [p]) ==> Record(pairs + [p])[name] == With(Record(pairs), p)[name]
  {
    RecordHas(pairs, name);
    RecordHas(pairs + [p], name);
    ValuesForMore(pairs, p, name);
    ShapeItems(ValuesFor(pairs, name));
    assert ValuesFor(pairs, name) + [] == ValuesFor(pairs, name);
    hide Record, ValuesFor, Shape, Items;
  }

  lemma RecordStep(pairs: seq<Pair>, p: Pair)
    ensures Record(pairs + [p]) == With(Record(pairs), p)
  {
    hide *;
    forall name
      ensures name in Record(pairs + [p]) <==> name in With(Record(pairs), p)
      ensures name in Record(pairs + [p]) ==> Record(pairs + [p])[name] == With(Record(pairs), p)[name]
    {
      WithHas(pairs, p, name);
    }
  }

  lemma ParseStep(params: seq<Pair>, i: nat)
    requires i < |params|
    ensures Record(params[..i + 1]) == With(Record(params[..i]), params[i])
  {
    hide *;
    assert params[..i + 1] == params[..i] + [params[i]];
    RecordStep(params[..i], params[i]);
  }

  // ---------------------------------------------------------------- the order of keys

  predicate IsDigit(c: Scalar) {
    0x30 <= c <= 0x39
  }

  function DigitValue(c: Scalar): nat
    requires IsDigit(c)
  {
    var n: int := c;
    n - 0x30
  }

  function Number(digits: Text): nat
    requires forall i :: 0 <= i < |digits| ==> IsDigit(digits[i])
  {
    if digits == [] then 0 else Number(digits[..|digits| - 1]) * 10 + DigitValue(digits[|digits| - 1])
  }

  /** An array index: a number under 2 to the 32, less one, without leading zeros. */
  predicate IsIndex(key: Text) {
    && key != [] && (forall i :: 0 <= i < |key| ==> IsDigit(key[i]))
    && (key[0] == 0x30 ==> |key| == 1) && Number(key) < 0xFFFF_FFFF
  }

  /** `a` may come before `b`: array indices come first, from the least on. */
  predicate MayPrecede(a: Text, b: Text) {
    IsIndex(b) ==> IsIndex(a) && Number(a) <= Number(b)
  }

  predicate InOrder(keys: seq<Text>) {
    forall i, j :: 0 <= i < j < |keys| ==> MayPrecede(keys[i], keys[j])
  }

  /** A new key goes as far to the end as the order lets it. */
  function Placed(keys: seq<Text>, key: Text): seq<Text> {
    if keys == [] || MayPrecede(keys[|keys| - 1], key) then keys + [key]
    else Placed(keys[..|keys| - 1], key) + [keys[|keys| - 1]]
  }

  /** The keys of an object that got them in the order `inserted`, as `Object.entries` lists them. */
  function OwnKeys(inserted: seq<Text>): seq<Text> {
    if inserted == [] then [] else Placed(OwnKeys(inserted[..|inserted| - 1]), inserted[|inserted| - 1])
  }

  /** The keys that are no array indices. */
  function Others(keys: seq<Text>): seq<Text> {
    if keys == [] then []
    else Others(keys[..|keys| - 1]) + if IsIndex(keys[|keys| - 1]) then [] else [keys[|keys| - 1]]
  }

  lemma OthersMore(keys: seq<Text>, key: Text)
    ensures Others(keys + [key]) == Others(keys) + if IsIndex(key) then [] else [key]
  {
    assert (keys + [key])[..|keys|] == keys;
  }

  lemma {:induction false} PlacedHas(keys: seq<Text>, key: Text)
    ensures multiset(Placed(keys, key)) == multiset(keys) + multiset{key}
  {
    if keys != [] && !MayPrecede(keys[|keys| - 1], key) {
      var n := |keys| - 1;
      PlacedHas(keys[..n], key);
      assert keys == keys[..n] + [keys[n]];
    }
    hide MayPrecede;
  }

  lemma {:induction false} PlacedOthers(keys: seq<Text>, key: Text)
    requires InOrder(keys)
    ensures Others(Placed(keys, key)) == Others(keys) + if IsIndex(key) then [] else [key]
  {
    OthersMore(keys, key);
    if keys != [] && !MayPrecede(keys[|keys| - 1], key) {
      var n := |keys| - 1;
      PlacedOthers(keys[..n], key);
      OthersMore(Placed(keys[..n], key), keys[n]);
      assert IsIndex(key);
    }
    hide IsIndex, Others, Number;
  }

  lemma Ahead(a: Text, b: Text, c: Text)
    ensures MayPrecede(a, b) && MayPrecede(b, c) ==> MayPrecede(a, c)
    ensures MayPrecede(a, b) || MayPrecede(b, a)
  {
    hide IsIndex, Number;
  }

  lemma InOrderMore(keys: seq<Text>, key: Text)
    requires InOrder(keys) && forall i :: 0 <= i < |keys| ==> MayPrecede(keys[i], key)
    ensures InOrder(keys + [key])
  {
    hide MayPrecede;
  }

  lemma {:induction false} PlacedInOrder(keys: seq<Text>, key: Text)
    requires InOrder(keys)
    ensures InOrder(Placed(keys, key))
  {
    if keys != [] {
      var n := |keys| - 1;
      var placed, last := Placed(keys[..n], key), keys[n];
      hide MayPrecede;
      if MayPrecede(last, key) {
        forall i | 0 <= i < |keys|
          ensures MayPrecede(keys[i], key)
        {
          Ahead(keys[i], last, key);
        }
        InOrderMore(keys, key);
      } else {
        Ahead(last, key, key);
        PlacedInOrder(keys[..n], key);
        forall i | 0 <= i < |placed|
          ensures MayPrecede(placed[i], last)
        {
          PlacedHas(keys[..n], key);
          FromBoth(keys[..n], key, placed, i);
        }
        InOrderMore(placed, last);
      }
    }
  }

  lemma FromBoth(first: seq<Text>, key: Text, both: seq<Text>, i: nat)
    requires i < |both| && multiset(both) == multiset(first) + multiset{key}
    ensures both[i] in first || both[i] == key
  {
    assert both[i] in multiset(both);
  }

  lemma {:induction false} OwnKeysHas(inserted: seq<Text>)
    ensures multiset(OwnKeys(inserted)) == multiset(inserted)
  {
    if inserted != [] {
      var n := |inserted| - 1;
      OwnKeysHas(inserted[..n]);
      PlacedHas(OwnKeys(inserted[..n]), inserted[n]);
      assert inserted == inserted[..n] + [inserted[n]];
      hide Placed;
    }
  }

  lemma OwnKeysStep(inserted: seq<Text>)
    ensures inserted == [] ==> OwnKeys(inserted) == [] && InOrder([]) && Others([]) == []
    ensures inserted != [] ==>
              OwnKeys(inserted) == Placed(OwnKeys(inserted[..|inserted| - 1]), inserted[|inserted| - 1])
  {
    hide Placed;
  }

  lemma {:induction false} OwnKeysInOrder(inserted: seq<Text>)
    ensures InOrder(OwnKeys(inserted)) && Others(OwnKeys(inserted)) == Others(inserted)
  {
    hide *;
    OwnKeysStep(inserted);
    if inserted != [] {
      var n := |inserted| - 1;
      var first := inserted[..n];
      OwnKeysInOrder(first);
      PlacedOthers(OwnKeys(first), inserted[n]);
      PlacedInOrder(OwnKeys(first), inserted[n]);
      OthersMore(first, inserted[n]);
      assert inserted == first + [inserted[n]];
    }
  }

  /** The order: all the keys, array indices first and ascending, and the others as they were inserted. */
  lemma OwnKeysOrder(inserted: seq<Text>)
    ensures multiset(OwnKeys(inserted)) == multiset(inserted)
    ensures InOrder(OwnKeys(inserted))
    ensures Others(OwnKeys(inserted)) == Others(inserted)
  {
    hide *;
    OwnKeysHas(inserted);
    OwnKeysInOrder(inserted);
  }

  /** Keys that come in order keep it. */
  lemma {:induction false} OwnKeysKeepOrder(inserted: seq<Text>)
    requires InOrder(inserted)
    ensures OwnKeys(inserted) == inserted
  {
    if inserted != [] {
      var n := |inserted| - 1;
      OwnKeysKeepOrder(inserted[..n]);
      assert n > 0 ==> MayPrecede(inserted[n - 1], inserted[n]);
      assert inserted == inserted[..n] + [inserted[n]];
    }
  }

  // ---------------------------------------------------------------- parsing

  ghost predicate Differ<T>(keys: seq<T>) {
    forall i, j :: 0 <= i < j < |keys| ==> keys[i] != keys[j]
  }

  /** An object: its values, and its keys in the order in which it got them. */
  datatype Object = Object(values: map<Text, Value>, inserted: seq<Text>)

  /** The names of the pairs, each where it comes first. */
  function FirstNames(pairs: seq<Pair>): seq<Text> {
    if pairs == [] then []
    else
      var n := |pairs| - 1;
      var names := FirstNames(pairs[..n]);
      if pairs[n].name in names then names else names + [pairs[n].name]
  }

  lemma FirstNamesMore(pairs: seq<Pair>, p: Pair)
    ensures FirstNames(pairs + [p])
            == if p.name in FirstNames(pairs) then FirstNames(pairs) else FirstNames(pairs) + [p.name]
  {
    assert (pairs + [p])[..|pairs|] == pairs;
  }

  lemma {:induction false} FirstNamesAreNames(pairs: seq<Pair>, name: Text)
    ensures name in FirstNames(pairs) <==> name in Record(pairs)
  {
    if pairs == [] {
      RecordHas(pairs, name);
    } else {
      var n := |pairs| - 1;
      FirstNamesAreNames(pairs[..n], name);
      assert pairs == pairs[..n] + [pairs[n]];
      RecordHas(pairs[..n], name);
      RecordHas(pairs, name);
      ValuesForMore(pairs[..n], pairs[n], name);
      FirstNamesMore(pairs[..n], pairs[n]);
      hide Record, ValuesFor, FirstNames;
    }
  }

  lemma {:induction false} FirstNamesDiffer(pairs: seq<Pair>)
    ensures Differ(FirstNames(pairs))
  {
    if pairs != [] {
      FirstNamesDiffer(pairs[..|pairs| - 1]);
    }
  }

  /** The object `parseSearch` makes of a query. */
  function Parsed(query: Text): Object {
    Object(Record(Params(query)), FirstNames(Params(query)))
  }

  method ParseSearch(query: Text) returns (search: Object)
    ensures search == Parsed(query)
  {
    search := Object(map[], []);
    var params := Params(query);
    hide Params, Record, FirstNames;
    EmptyRecord();
    assert params[..0] == [];
    for i := 0 to |params|
      invariant search == Object(Record(params[..i]), FirstNames(params[..i]))
    {
      ParseStep(params, i);
      FirstNamesMore(params[..i], params[i]);
      FirstNamesAreNames(params[..i], params[i].name);
      assert params[..i + 1] == params[..i] + [params[i]];
      var Pair(key, value) := params[i];
      if key !in search.values {
        search := Object(search.values[key := One(value)], search.inserted + [key]);
      } else {
        search := search.(values := search.values[key := Many(Items(search.values[key]) + [value])]);
      }
    }
    assert params[..|params|] == params;
  }

  lemma EmptyRecord()
    ensures Record([]) == map[] && FirstNames([]) == []
  {
  }

  // ---------------------------------------------------------------- printing

  function PairsFor(key: Text, texts: seq<Text>): seq<Pair> {
    if texts == [] then [] else PairsFor(key, texts[..|texts| - 1]) + [Pair(key, texts[|texts| - 1])]
  }

  /** The pairs of a record whose keys come in the order `keys`. */
  function PairsOf(search: map<Text, Value>, keys: seq<Text>): seq<Pair>
    requires forall i :: 0 <= i < |keys| ==> keys[i] in search
  {
    if keys == [] then []
    else
      var n := |keys| - 1;
      PairsOf(search, keys[..n]) + PairsFor(keys[n], Items(search[keys[n]]))
  }

  function Printed(pairs: seq<Pair>): Text {
    var query := Serialize(pairs);
    if query != [] then [QUESTION] + query else []
  }

  /** `keys` are the record's keys, each once, in the order `Object.entries` lists them. */
  ghost predicate Enumerates(keys: seq<Text>, search: map<Text, Value>) {
    && (forall i :: 0 <= i < |keys| ==> keys[i] in search)
    && (forall key :: key in search ==> key in keys)
    && Differ(keys)
  }

  ghost predicate IsObject(search: Object) {
    Enumerates(search.inserted, search.values)
  }

  lemma {:induction false} PlacedDiffer(keys: seq<Text>, key: Text)
    requires Differ(keys) && key !in keys
    ensures Differ(Placed(keys, key))
  {
    if keys != [] && !MayPrecede(keys[|keys| - 1], key) {
      var n := |keys| - 1;
      var placed := Placed(keys[..n], key);
      PlacedDiffer(keys[..n], key);
      PlacedHas(keys[..n], key);
      forall i | 0 <= i < |placed|
        ensures placed[i] != keys[n]
      {
        FromBoth(keys[..n], key, placed, i);
      }
      hide MayPrecede, Placed;
    }
    hide MayPrecede;
  }

  lemma {:induction false} OwnKeysDiffer(inserted: seq<Text>)
    requires Differ(inserted)
    ensures Differ(OwnKeys(inserted))
  {
    if inserted != [] {
      var n := |inserted| - 1;
      OwnKeysDiffer(inserted[..n]);
      OwnKeysHas(inserted[..n]);
      LastIsNew(inserted);
      SameElements(OwnKeys(inserted[..n]), inserted[..n], inserted[n]);
      PlacedDiffer(OwnKeys(inserted[..n]), inserted[n]);
    }
    hide Placed;
  }

  lemma SameElements<T>(a: seq<T>, b: seq<T>, one: T)
    requires multiset(a) == multiset(b)
    ensures one in a <==> one in b
  {
    assert one in a <==> one in multiset(a);
    assert one in b <==> one in multiset(b);
  }

  /** The order lists what was inserted. */
  lemma OwnKeysEnumerate(search: Object)
    requires IsObject(search)
    ensures Enumerates(OwnKeys(search.inserted), search.values)
  {
    var keys := OwnKeys(search.inserted);
    OwnKeysDiffer(search.inserted);
    OwnKeysHas(search.inserted);
    forall key
      ensures key in keys <==> key in search.values
    {
      SameElements(keys, search.inserted, key);
      assert key in search.inserted <==> key in search.values;
    }
    assert forall i :: 0 <= i < |keys| ==> keys[i] in keys;
    hide OwnKeys, Differ;
  }

  /** What `stringifySearch` makes of an object. */
  function Stringified(search: Object): Text
    requires IsObject(search)
  {
    OwnKeysEnumerate(search);
    Printed(PairsOf(search.values, OwnKeys(search.inserted)))
  }

  lemma PairsForMore(key: Text, texts: seq<Text>, j: nat)
    requires j < |texts|
    ensures PairsFor(key, texts[..j + 1]) == PairsFor(key, texts[..j]) + [Pair(key, texts[j])]
  {
    assert texts[..j + 1][..j] == texts[..j];
  }

  lemma PairsOfMore(search: map<Text, Value>, keys: seq<Text>, i: nat)
    requires i < |keys| && forall j :: 0 <= j < |keys| ==> keys[j] in search
    ensures PairsOf(search, keys[..i + 1]) == PairsOf(search, keys[..i]) + PairsFor(keys[i], Items(search[keys[i]]))
  {
    assert keys[..i + 1][..i] == keys[..i];
    hide PairsFor, Items;
  }

  lemma NoPairs(key: Text, search: map<Text, Value>)
    ensures PairsFor(key, []) == [] && PairsOf(search, []) == [] && Items(Undefined) == []
  {
  }

  /** The loops over a record's entries in the order `keys`. */
  method PrintEntries(search: map<Text, Value>, keys: seq<Text>) returns (text: Text)
    requires Enumerates(keys, search)
    ensures text == Printed(PairsOf(search, keys))
  {
    var params: seq<Pair> := [];
    NoPairs([], search);
    hide PairsOf, PairsFor, Items, Serialize;
    for i := 0 to |keys|
      invariant params == PairsOf(search, keys[..i])
    {
      var key, value := keys[i], search[keys[i]];
      PairsOfMore(search, keys, i);
      NoPairs(key, search);
      if value != Undefined {
        var items := Items(value);
        for j := 0 to |items|
          invariant params == PairsOf(search, keys[..i]) + PairsFor(key, items[..j])
        {
          PairsForMore(key, items, j);
          params := params + [Pair(key, items[j])];
        }
        assert items[..|items|] == items;
      }
    }
    assert keys[..|keys|] == keys;
    var query := Serialize(params);
    text := if query != [] then [QUESTION] + query else [];
  }

  method StringifySearch(search: Object) returns (text: Text)
    requires IsObject(search)
    ensures text == Stringified(search)
  {
    OwnKeysEnumerate(search);
    text := PrintEntries(search.values, OwnKeys(search.inserted));
  }

  // ---------------------------------------------------------------- what is read back

  /** The record without what holds nothing, and with a list of one as a text. */
  function Normal(search: map<Text, Value>): map<Text, Value> {
    map key | key in search && Items(search[key]) != [] :: Shape(Items(search[key]))
  }

  lemma {:induction false} ValuesForConcat(a: seq<Pair>, b: seq<Pair>, name: Text)
    ensures ValuesFor(a + b, name) == ValuesFor(a, name) + ValuesFor(b, name)
  {
    if b == [] {
      assert a + b == a;
    } else {
      var n := |b| - 1;
      ValuesForConcat(a, b[..n], name);
      assert (a + b)[..|a| + n] == a + b[..n] && (a + b)[|a| + n] == b[n];
    }
  }

  lemma {:induction false} ValuesForOne(key: Text, texts: seq<Text>, name: Text)
    ensures ValuesFor(PairsFor(key, texts), name) == if name == key then texts else []
  {
    assert texts == [] ==> PairsFor(key, texts) == [] && ValuesFor([], name) == [];
    assert texts != [] ==>
      PairsFor(key, texts) == PairsFor(key, texts[..|texts| - 1]) + [Pair(key, texts[|texts| - 1])];
    hide *;
    if texts != [] {
      var n := |texts| - 1;
      ValuesForOne(key, texts[..n], name);
      ValuesForMore(PairsFor(key, texts[..n]), Pair(key, texts[n]), name);
      assert texts == texts[..n] + [texts[n]];
    }
  }

  lemma InFirst<T>(keys: seq<T>, name: T)
    requires keys != []
    ensures name in keys <==> name in keys[..|keys| - 1] || name == keys[|keys| - 1]
  {
    assert keys == keys[..|keys| - 1] + [keys[|keys| - 1]];
  }

  lemma {:induction false} ValuesForRecord(search: map<Text, Value>, keys: seq<Text>, name: Text)
    requires forall i :: 0 <= i < |keys| ==> keys[i] in search
    requires Differ(keys)
    ensures ValuesFor(PairsOf(search, keys), name) == if name in keys then Items(search[name]) else []
  {
    if keys != [] {
      var n := |keys| - 1;
      assert PairsOf(search, keys) == PairsOf(search, keys[..n]) + PairsFor(keys[n], Items(search[keys[n]]));
      hide *;
      ValuesForRecord(search, keys[..n], name);
      ValuesForConcat(PairsOf(search, keys[..n]), PairsFor(keys[n], Items(search[keys[n]])), name);
      ValuesForOne(keys[n], Items(search[keys[n]]), name);
      InFirst(keys, name);
      if name == keys[n] {
        LastIsNew(keys);
      }
    }
  }

  lemma LastIsNew<T>(keys: seq<T>)
    requires keys != [] && Differ(keys)
    ensures keys[|keys| - 1] !in keys[..|keys| - 1]
  {
  }

  lemma RecordOfPairs(search: map<Text, Value>, keys: seq<Text>)
    requires Enumerates(keys, search)
    ensures Record(PairsOf(search, keys)) == Normal(search)
  {
    var pairs := PairsOf(search, keys);
    forall name
      ensures name in Record(pairs) <==> name in Normal(search)
      ensures name in Record(pairs) ==> Record(pairs)[name] == Normal(search)[name]
    {
      RecordHas(pairs, name);
      ValuesForRecord(search, keys, name);
      assert name in keys <==> name in search;
      hide Record, PairsOf, ValuesFor, Items, Shape;
    }
  }

  /** Parsing what was printed gives the record in its normal form, whatever the order of the keys. */
  lemma ParseOfPrint(search: map<Text, Value>, keys: seq<Text>)
    requires Enumerates(keys, search)
    ensures Record(Params(Printed(PairsOf(search, keys)))) == Normal(search)
  {
    var pairs := PairsOf(search, keys);
    ParamsOfSerialized(pairs);
    RecordOfPairs(search, keys);
    assert Serialize(pairs) == [] ==> Printed(pairs) == Serialize(pairs);
    hide Record, Params, Normal, Serialize, PairsOf;
  }

  lemma RecordIsNormal(pairs: seq<Pair>)
    ensures Normal(Record(pairs)) == Record(pairs)
  {
    forall name
      ensures name in Record(pairs) ==>
                Record(pairs)[name] == Shape(ValuesFor(pairs, name)) && ValuesFor(pairs, name) != []
    {
      RecordHas(pairs, name);
      ShapeItems(ValuesFor(pairs, name));
    }
    hide ValuesFor, Names;
  }

  /** A query's params survive being printed and parsed again. */
  lemma ParsePrintParse(query: Text, keys: seq<Text>)
    requires Enumerates(keys, Record(Params(query)))
    ensures Record(Params(Printed(PairsOf(Record(Params(query)), keys)))) == Record(Params(query))
  {
    hide *;
    ParseOfPrint(Record(Params(query)), keys);
    RecordIsNormal(Params(query));
  }

  /** The keys that hold something, in the same order. */
  function Live(search: map<Text, Value>, keys: seq<Text>): seq<Text>
    requires forall i :: 0 <= i < |keys| ==> keys[i] in search
  {
    if keys == [] then []
    else
      var n := |keys| - 1;
      Live(search, keys[..n]) + if Items(search[keys[n]]) != [] then [keys[n]] else []
  }

  lemma {:induction false} LiveKeys(search: map<Text, Value>, keys: seq<Text>, key: Text)
    requires forall i :: 0 <= i < |keys| ==> keys[i] in search
    requires Differ(keys)
    ensures key in Live(search, keys) <==> key in keys && Items(search[key]) != []
    ensures forall i, j :: 0 <= i < j < |Live(search, keys)| ==> Live(search, keys)[i] != Live(search, keys)[j]
  {
    if keys != [] {
      var n := |keys| - 1;
      LiveKeys(search, keys[..n], key);
      LiveKeys(search, keys[..n], keys[n]);
      InFirst(keys, key);
      LastIsNew(keys);
      hide Items;
    }
  }

  lemma LiveEnumerates(search: map<Text, Value>, keys: seq<Text>)
    requires Enumerates(keys, search)
    ensures Enumerates(Live(search, keys), Normal(search))
  {
    var live := Live(search, keys);
    forall key
      ensures key in live <==> key in Normal(search)
    {
      LiveKeys(search, keys, key);
      assert key in keys <==> key in search;
    }
    LiveKeys(search, keys, []);
    assert forall i :: 0 <= i < |live| ==> live[i] in live;
    hide Live, Normal, Items;
  }

  lemma {:induction false} LivePairs(search: map<Text, Value>, keys: seq<Text>)
    requires forall i :: 0 <= i < |keys| ==> keys[i] in search
    requires forall i :: 0 <= i < |Live(search, keys)| ==> Live(search, keys)[i] in Normal(search)
    ensures PairsOf(Normal(search), Live(search, keys)) == PairsOf(search, keys)
  {
    if keys != [] {
      var n := |keys| - 1;
      var rest, last := Live(search, keys[..n]), keys[n];
      var items := Items(search[last]);
      assert Live(search, keys) == rest + if items != [] then [last] else [];
      assert forall i :: 0 <= i < |rest| ==> Live(search, keys)[i] == rest[i];
      LivePairs(search, keys[..n]);
      assert PairsOf(search, keys) == PairsOf(search, keys[..n]) + PairsFor(last, items);
      if items == [] {
        NoPairs(last, search);
        assert rest + [] == rest;
      } else {
        ShapeItems(items);
        assert Items(Normal(search)[last]) == items;
        assert Live(search, keys)[..|rest|] == rest && Live(search, keys)[|rest|] == last;
      }
      hide PairsFor, Normal, Items, Live;
    }
  }

  lemma PrintedAgain(search: map<Text, Value>, keys: seq<Text>)
    requires Enumerates(keys, search)
    ensures var again := Record(Params(Printed(PairsOf(search, keys))));
            && Enumerates(Live(search, keys), again)
            && Printed(PairsOf(again, Live(search, keys))) == Printed(PairsOf(search, keys))
  {
    ParseOfPrint(search, keys);
    LiveEnumerates(search, keys);
    LivePairs(search, keys);
    hide Record, Params, Normal, Live, PairsOf, Printed;
  }

  // ---------------------------------------------------------------- the order read back

  lemma {:induction false} FirstNamesOfKey(pairs: seq<Pair>, key: Text, texts: seq<Text>)
    requires key !in FirstNames(pairs)
    ensures FirstNames(pairs + PairsFor(key, texts)) == FirstNames(pairs) + if texts == [] then [] else [key]
  {
    if texts == [] {
      assert pairs + PairsFor(key, texts) == pairs;
    } else {
      var n := |texts| - 1;
      FirstNamesOfKey(pairs, key, texts[..n]);
      FirstNamesMore(pairs + PairsFor(key, texts[..n]), Pair(key, texts[n]));
      assert pairs + PairsFor(key, texts) == pairs + PairsFor(key, texts[..n]) + [Pair(key, texts[n])];
    }
    hide FirstNames;
  }

  /** The pairs of an object name its keys that hold something, in the same order. */
  lemma {:induction false} FirstNamesOfPairs(search: map<Text, Value>, keys: seq<Text>)
    requires (forall i :: 0 <= i < |keys| ==> keys[i] in search) && Differ(keys)
    ensures FirstNames(PairsOf(search, keys)) == Live(search, keys)
  {
    if keys != [] {
      var n := |keys| - 1;
      FirstNamesOfPairs(search, keys[..n]);
      LiveKeys(search, keys[..n], keys[n]);
      LastIsNew(keys);
      FirstNamesOfKey(PairsOf(search, keys[..n]), keys[n], Items(search[keys[n]]));
      hide FirstNames, PairsFor, Items;
    }
  }

  lemma {:induction false} LiveInOrder(search: map<Text, Value>, keys: seq<Text>)
    requires (forall i :: 0 <= i < |keys| ==> keys[i] in search) && Differ(keys) && InOrder(keys)
    ensures InOrder(Live(search, keys))
  {
    if keys != [] {
      var n := |keys| - 1;
      var live := Live(search, keys[..n]);
      LiveInOrder(search, keys[..n]);
      hide Items, MayPrecede;
      forall i | 0 <= i < |live|
        ensures MayPrecede(live[i], keys[n])
      {
        LiveKeys(search, keys[..n], live[i]);
      }
      InOrderMore(live, keys[n]);
    }
  }

  lemma ParamsOfPrinted(pairs: seq<Pair>)
    ensures Params(Printed(pairs)) == pairs
  {
    ParamsOfSerialized(pairs);
    hide Params, Serialize;
  }

  /** What is read back from an object: its normal form, with the keys in the order JavaScript lists them. */
  lemma ParsedStringified(search: Object)
    requires IsObject(search)
    ensures var keys := OwnKeys(search.inserted);
            && Enumerates(keys, search.values)
            && Parsed(Stringified(search)) == Object(Normal(search.values), Live(search.values, keys))
            && OwnKeys(Live(search.values, keys)) == Live(search.values, keys)
            && IsObject(Parsed(Stringified(search)))
  {
    var keys := OwnKeys(search.inserted);
    OwnKeysEnumerate(search);
    OwnKeysInOrder(search.inserted);
    ParseOfPrint(search.values, keys);
    ParamsOfPrinted(PairsOf(search.values, keys));
    FirstNamesOfPairs(search.values, keys);
    LiveInOrder(search.values, keys);
    OwnKeysKeepOrder(Live(search.values, keys));
    LiveEnumerates(search.values, keys);
    hide Record, Params, Normal, Live, PairsOf, Printed, OwnKeys, FirstNames, InOrder;
  }

  /**
   * What was printed is printed the same once it has been parsed, with the keys as JavaScript orders them each time.
   */
  lemma PrintIsStable(search: Object)
    requires IsObject(search)
    ensures var again := Parsed(Stringified(search));
            IsObject(again) && Stringified(again) == Stringified(search)
  {
    ParsedStringified(search);
    PrintedAgain(search.values, OwnKeys(search.inserted));
    ParseOfPrint(search.values, OwnKeys(search.inserted));
    hide Record, Params, Normal, Live, PairsOf, Printed, OwnKeys, Parsed, IsObject;
  }

  lemma ParsedIsObject(query: Text)
    ensures IsObject(Parsed(query))
  {
    var pairs := Params(query);
    FirstNamesDiffer(pairs);
    forall key
      ensures key in FirstNames(pairs) <==> key in Record(pairs)
    {
      FirstNamesAreNames(pairs, key);
    }
    assert forall i :: 0 <= i < |FirstNames(pairs)| ==> FirstNames(pairs)[i] in FirstNames(pairs);
    hide FirstNames, Record, Params, Differ;
  }

  /** The query a request is redirected to, if it differs from its own. */
  function Redirected(query: Text): Text {
    ParsedIsObject(query);
    Stringified(Parsed(query))
  }

  /** A redirect is the last: what it leads to is not redirected again, and has the same params. */
  lemma RedirectsOnce(query: Text)
    ensures Redirected(Redirected(query)) == Redirected(query)
    ensures Parsed(Redirected(query)).values == Parsed(query).values
  {
    ParsedIsObject(query);
    PrintIsStable(Parsed(query));
    ParsedStringified(Parsed(query));
    RecordIsNormal(Params(query));
    hide Stringified, Params, Record, Normal, FirstNames, Live, OwnKeys, IsObject;
  }
}
