/**
 * The JSON a send request is made of, the relay's validation of it, and the size of what is made from it:
 * apps/push-relay/src/relay.ts and apps/push-relay/src/apns.ts.
 */
module Wire {
  import opened Wrappers
  import opened Base64
  import Utf8
  import Uuids

  /** A parsed JSON value. Numbers that are not integers need no value: nothing accepts them. */
  datatype Json =
    | Null
    | Bool(b: bool)
    | Int(n: int)
    | OtherNumber
    | Str(s: string)
    | Arr(items: seq<Json>)
    | Obj(fields: seq<Field>)

  datatype Field = Field(name: string, value: Json)

  const MAX_REQUEST_BYTES: nat := 8192
  const MAX_PAYLOAD_BYTES: nat := 4096
  const MAX_DEVICE_TOKEN_CHARS: nat := 1024
  const MAX_SAFE_INTEGER: int := 0x1F_FFFF_FFFF_FFFF

  // ---------------------------------------------------------------- validation

  predicate Has(fields: seq<Field>, name: string) {
    exists i :: 0 <= i < |fields| && fields[i].name == name
  }

  function Get(fields: seq<Field>, name: string): (value: Json)
    requires Has(fields, name)
    ensures Field(name, value) in fields
  {
    if fields[0].name == name then fields[0].value else Get(fields[1..], name)
  }

  /** The names of an object's fields are distinct, as those of every JavaScript object are. */
  ghost predicate Distinct(fields: seq<Field>) {
    forall i, j :: 0 <= i < j < |fields| ==> fields[i].name != fields[j].name
  }

  predicate IsObject(value: Json, keys: seq<string>) {
    value.Obj? && |value.fields| == |keys| && forall i :: 0 <= i < |keys| ==> Has(value.fields, keys[i])
  }

  predicate IsHexDigit(c: char) {
    '0' <= c <= '9' || 'a' <= c <= 'f'
  }

  predicate IsHex(s: string) {
    forall i :: 0 <= i < |s| ==> IsHexDigit(s[i])
  }

  predicate IsUuid(s: string) {
    Uuids.IsUuid(s, false)
  }

  predicate IsCanonical(value: Json, min: nat, max: nat) {
    value.Str? && Canonical(value.s, min, max)
  }

  const REQUEST_KEYS := ["device_token", "environment", "event_id", "expires_at", "envelope"]
  const ENVELOPE_KEYS := ["version", "key_id", "identity", "nonce", "ciphertext"]

  datatype SendRequest = SendRequest(
    deviceToken: string, environment: string, eventId: string, expiresAt: int, envelope: seq<Field>)

  predicate ValidEnvelope(envelope: Json) {
    && IsObject(envelope, ENVELOPE_KEYS)
    && HasEnvelopeKeys(envelope.fields)
    && Get(envelope.fields, "version") == Int(1)
    && Get(envelope.fields, "key_id").Str? && IsUuid(Get(envelope.fields, "key_id").s)
    && Get(envelope.fields, "identity").Str?
    && |Get(envelope.fields, "identity").s| == 64 && IsHex(Get(envelope.fields, "identity").s)
    && IsCanonical(Get(envelope.fields, "nonce"), 12, 12)
    && IsCanonical(Get(envelope.fields, "ciphertext"), 16, 2070)
  }

  predicate HasEnvelopeKeys(fields: seq<Field>) {
    && Has(fields, "version") && Has(fields, "key_id") && Has(fields, "identity") && Has(fields, "nonce")
    && Has(fields, "ciphertext")
  }

  predicate HasRequestKeys(fields: seq<Field>) {
    && Has(fields, "device_token") && Has(fields, "environment") && Has(fields, "event_id") && Has(fields, "expires_at")
    && Has(fields, "envelope")
  }

  /** The checks on the five values of a request. */
  function Checked(token: Json, environment: Json, event: Json, expires: Json, envelope: Json, now: int)
    : Option<SendRequest>
  {
    if !token.Str? || |token.s| < 2 || |token.s| > MAX_DEVICE_TOKEN_CHARS || |token.s| % 2 != 0 || !IsHex(token.s)
       || (environment != Str("sandbox") && environment != Str("production"))
       || !event.Str? || !IsUuid(event.s)
       || !expires.Int? || !(-MAX_SAFE_INTEGER <= expires.n <= MAX_SAFE_INTEGER) || expires.n <= 0
       || expires.n > now + 1800
       || !ValidEnvelope(envelope)
    then None
    else Some(SendRequest(token.s, environment.s, event.s, expires.n, envelope.fields))
  }

  /** `validate`: the request, or nothing. `now` is in seconds. */
  function Validate(value: Json, now: int): Option<SendRequest> {
    if !(IsObject(value, REQUEST_KEYS) && HasRequestKeys(value.fields)) then None
    else
      var token := Get(value.fields, "device_token");
      var environment := Get(value.fields, "environment");
      var event := Get(value.fields, "event_id");
      var expires := Get(value.fields, "expires_at");
      var envelope := Get(value.fields, "envelope");
      Checked(token, environment, event, expires, envelope, now)
  }

  // ---------------------------------------------------------------- compact JSON

  function HexDigit(n: nat): char
    requires n < 16
  {
    if n < 10 then (n + 48) as char else (n + 87) as char
  }

  /** A character inside a JSON string, as JSON.stringify writes it. */
  function Escaped(c: char): string {
    if c == '"' then "\\\"" else if c == '\\' then "\\\\"
    else if c == '\n' then "\\n" else if c == '\r' then "\\r" else if c == '\t' then "\\t"
    else if c == 8 as char then "\\b" else if c == 12 as char then "\\f"
    else if c < ' ' then "\\u00" + [HexDigit(c as int / 16), HexDigit(c as int % 16)]
    else [c]
  }

  function EscapedAll(s: string): string {
    if s == "" then "" else Escaped(s[0]) + EscapedAll(s[1..])
  }

  function Quoted(s: string): string {
    "\"" + EscapedAll(s) + "\""
  }

  function Decimal(n: nat): string {
    if n < 10 then [HexDigit(n)] else Decimal(n / 10) + [HexDigit(n % 10)]
  }

  /** JSON.stringify, for values whose numbers are safe integers. */
  function Stringify(value: Json): string
    requires Printable(value)
  {
    match value
    case Null => "null"
    case Bool(b) => if b then "true" else "false"
    case Int(n) => if n < 0 then "-" + Decimal(-n) else Decimal(n)
    case Str(s) => Quoted(s)
    case Arr(items) => "[" + StringifyItems(items) + "]"
    case Obj(fields) => "{" + StringifyFields(fields) + "}"
    case OtherNumber => assert false; ""
  }

  function StringifyItems(items: seq<Json>): string
    requires forall i :: 0 <= i < |items| ==> Printable(items[i])
  {
    if items == [] then ""
    else Stringify(items[0]) + (if |items| == 1 then "" else ",") + StringifyItems(items[1..])
  }

  function StringifyFields(fields: seq<Field>): string
    requires forall i :: 0 <= i < |fields| ==> Printable(fields[i].value)
  {
    if fields == [] then ""
    else Quoted(fields[0].name) + ":" + Stringify(fields[0].value) + (if |fields| == 1 then "" else ",")
         + StringifyFields(fields[1..])
  }

  predicate Printable(value: Json) {
    match value
    case OtherNumber => false
    case Int(n) => -MAX_SAFE_INTEGER <= n <= MAX_SAFE_INTEGER
    case Arr(items) => forall i :: 0 <= i < |items| ==> Printable(items[i])
    case Obj(fields) => forall i :: 0 <= i < |fields| ==> Printable(fields[i].value)
    case _ => true
  }

  /** The bytes TextEncoder makes of a string. */
  function Utf8Length(s: string): nat {
    if s == "" then 0
    else
      (if s[0] < 0x80 as char then 1 else if s[0] < 0x800 as char then 2 else if s[0] < 0x10000 as char then 3 else 4)
      + Utf8Length(s[1..])
  }

  /** The payload `send` makes of an envelope and the texts of its fixed alert. */
  function Payload(title: string, body: string, sound: string, envelope: seq<Field>): Json {
    Obj([Field("aps", ApsOf(AlertOf(title, body), sound)), Field("serverbee_envelope", Obj(envelope))])
  }

  function AlertOf(title: string, body: string): Json {
    Obj([Field("title", Str(title)), Field("body", Str(body))])
  }

  function ApsOf(alert: Json, sound: string): Json {
    Obj([Field("alert", alert), Field("mutable-content", Int(1)), Field("sound", Str(sound))])
  }

  // ---------------------------------------------------------------- sizes

  function Scalars(s: string): Utf8.Text {
    if s == "" then [] else [s[0] as int] + Scalars(s[1..])
  }

  /** The size is that of the encoding. */
  lemma {:induction false} Utf8LengthIsSize(s: string)
    ensures Utf8Length(s) == |Utf8.Encode(Scalars(s))|
  {
    if s == "" {
    } else {
      Utf8LengthIsSize(s[1..]);
    }
  }

  lemma {:induction false} Utf8Concat(a: string, b: string)
    ensures Utf8Length(a + b) == Utf8Length(a) + Utf8Length(b)
  {
    if a == "" {
      assert a + b == b;
    } else {
      Utf8Concat(a[1..], b);
      assert (a + b)[1..] == a[1..] + b;
    }
  }

  lemma {:induction false} Utf8Ascii(s: string)
    requires forall i :: 0 <= i < |s| ==> s[i] < 0x80 as char
    ensures Utf8Length(s) == |s|
  {
    if s == "" {
    } else {
      Utf8Ascii(s[1..]);
    }
  }

  /** No character takes more than six bytes inside a JSON string. */
  lemma EscapedSize(c: char)
    ensures Utf8Length(Escaped(c)) <= 6
    ensures ' ' <= c < 0x80 as char && c != '"' && c != '\\' ==> Utf8Length(Escaped(c)) == 1
  {
    if ' ' <= c && c != '"' && c != '\\' {
      assert [c][1..] == "";
    } else {
      Utf8Ascii(Escaped(c));
    }
  }

  predicate IsPlain(s: string) {
    forall i :: 0 <= i < |s| ==> ' ' <= s[i] < 0x80 as char && s[i] != '"' && s[i] != '\\'
  }

  lemma {:induction false} EscapedAllSize(s: string)
    ensures Utf8Length(EscapedAll(s)) <= 6 * |s|
    ensures IsPlain(s) ==> Utf8Length(EscapedAll(s)) == |s|
  {
    if s == "" {
    } else {
      EscapedAllSize(s[1..]);
      EscapedSize(s[0]);
      Utf8Concat(Escaped(s[0]), EscapedAll(s[1..]));
    }
  }

  lemma QuotedSize(s: string)
    ensures Utf8Length(Quoted(s)) <= 6 * |s| + 2
    ensures IsPlain(s) ==> Utf8Length(Quoted(s)) == |s| + 2
  {
    EscapedAllSize(s);
    Utf8Ascii("\"");
    Utf8Concat("\"" + EscapedAll(s), "\"");
    Utf8Concat("\"", EscapedAll(s));
  }

  lemma {:induction false} DecimalSize(n: nat, digits: nat, bound: nat)
    requires 1 <= digits && bound == Power10(digits) && n < bound
    ensures Utf8Length(Decimal(n)) <= digits
  {
    if n < 10 {
      Utf8Ascii(Decimal(n));
    } else {
      DecimalSize(n / 10, digits - 1, bound / 10);
      Utf8Concat(Decimal(n / 10), [HexDigit(n % 10)]);
      Utf8Ascii([HexDigit(n % 10)]);
    }
  }

  function Power10(n: nat): nat {
    if n == 0 then 1 else 10 * Power10(n - 1)
  }

  /** The bytes of one field: its quoted name, the colon and its value. */
  function FieldSize(field: Field): nat
    requires Printable(field.value)
  {
    Utf8Length(Quoted(field.name)) + 1 + Utf8Length(Stringify(field.value))
  }

  lemma Utf8Concat5(a: string, b: string, c: string, d: string, e: string)
    ensures Utf8Length(a + b + c + d + e)
         == Utf8Length(a) + Utf8Length(b) + Utf8Length(c) + Utf8Length(d) + Utf8Length(e)
  {
    Utf8Concat(a + b + c + d, e);
    Utf8Concat(a + b + c, d);
    Utf8Concat(a + b, c);
    Utf8Concat(a, b);
  }

  lemma FieldsStep(fields: seq<Field>)
    requires fields != [] && forall i :: 0 <= i < |fields| ==> Printable(fields[i].value)
    ensures Utf8Length(StringifyFields(fields))
         == FieldSize(fields[0]) + (if |fields| == 1 then 0 else 1) + Utf8Length(StringifyFields(fields[1..]))
  {
    var comma := if |fields| == 1 then "" else ",";
    Utf8Concat5(Quoted(fields[0].name), ":", Stringify(fields[0].value), comma, StringifyFields(fields[1..]));
    Utf8Ascii(comma);
    Utf8Ascii(":");
  }

  lemma BracedSize(inner: string)
    ensures Utf8Length("{" + inner + "}") == Utf8Length(inner) + 2
  {
    Utf8Concat("{" + inner, "}");
    Utf8Concat("{", inner);
    Utf8Ascii("{");
    Utf8Ascii("}");
  }

  lemma ObjectSize(fields: seq<Field>)
    requires forall i :: 0 <= i < |fields| ==> Printable(fields[i].value)
    ensures Utf8Length(Stringify(Obj(fields))) == Utf8Length(StringifyFields(fields)) + 2
  {
    assert Stringify(Obj(fields)) == "{" + StringifyFields(fields) + "}";
    hide *;
    BracedSize(StringifyFields(fields));
  }

  function Times(n: nat, size: nat): nat {
    if n == 0 then 0 else size + Times(n - 1, size)
  }

  /** Fields with distinct names, only one of which may be large. */
  lemma {:induction false} FieldsSize(fields: seq<Field>, big: string, small: nat, large: nat)
    requires Distinct(fields)
    requires forall i :: 0 <= i < |fields| ==> Printable(fields[i].value)
    requires forall i :: 0 <= i < |fields| ==> FieldSize(fields[i]) <= if fields[i].name == big then large else small
    requires small <= large
    ensures Utf8Length(StringifyFields(fields)) <= Times(|fields|, small + 1) + large - small
    ensures !Has(fields, big) ==> Utf8Length(StringifyFields(fields)) <= Times(|fields|, small + 1)
  {
    if fields == [] {
    } else {
      var rest := fields[1..];
      FieldsStep(fields);
      HasCons(fields, big);
      FieldsSize(rest, big, small, large);
      assert fields[0].name == big ==> !Has(rest, big);
      assert Times(|fields|, small + 1) == small + 1 + Times(|rest|, small + 1);
      hide *;
    }
  }

  lemma {:induction false} TimesIsProduct(n: nat, size: nat)
    ensures Times(n, size) == n * size
  {
    if n == 0 {
    } else {
      TimesIsProduct(n - 1, size);
    }
  }

  lemma HasCons(fields: seq<Field>, name: string)
    requires fields != []
    ensures Has(fields, name) <==> fields[0].name == name || Has(fields[1..], name)
  {
    if Has(fields[1..], name) {
      var i :| 0 <= i < |fields[1..]| && fields[1..][i].name == name;
      assert fields[i + 1].name == name;
    }
    if Has(fields, name) && fields[0].name != name {
      var i :| 0 <= i < |fields| && fields[i].name == name;
      assert fields[1..][i - 1].name == name;
    }
  }

  function Names(fields: seq<Field>): set<string> {
    set i | 0 <= i < |fields| :: fields[i].name
  }

  lemma {:induction false} NamesSize(fields: seq<Field>)
    requires Distinct(fields)
    ensures |Names(fields)| == |fields|
  {
    if fields == [] {
    } else {
      NamesSize(fields[1..]);
      assert Names(fields) == Names(fields[1..]) + {fields[0].name};
    }
  }

  lemma SameSize<T>(a: set<T>, b: set<T>)
    requires a <= b && |a| == |b|
    ensures a == b
  {
    assert b == a + (b - a);
  }

  /** Five distinct names among which five are required: there are no others, and each field is the one `Get` finds. */
  lemma ExactlyTheseKeys(fields: seq<Field>, keys: seq<string>)
    requires Distinct(fields) && IsObject(Obj(fields), keys)
    requires forall i, j :: 0 <= i < j < |keys| ==> keys[i] != keys[j]
    ensures forall i :: 0 <= i < |fields| ==> fields[i].name in keys && Has(fields, fields[i].name)
    ensures forall i :: 0 <= i < |fields| && Has(fields, fields[i].name) ==>
              fields[i].value == Get(fields, fields[i].name)
  {
    var wanted := seq(|keys|, i requires 0 <= i < |keys| => Field(keys[i], Null));
    NamesSize(fields);
    NamesSize(wanted);
    forall k | k in Names(wanted) ensures k in Names(fields) {
      var i :| 0 <= i < |keys| && keys[i] == k;
      assert Has(fields, k);
    }
    SameSize(Names(wanted), Names(fields));
    forall i | 0 <= i < |fields| ensures fields[i].name in keys && fields[i].value == Get(fields, fields[i].name) {
      assert fields[i].name in Names(fields);
      var found := Field(fields[i].name, Get(fields, fields[i].name));
      assert found in fields;
    }
  }

  lemma CanonicalText(value: Json, min: nat, max: nat)
    requires IsCanonical(value, min, max)
    ensures IsPlain(value.s) && |value.s| <= EncodedLength(max)
  {
    Base64IsPlain(value.s);
  }

  lemma {:induction false} Base64IsPlain(v: string)
    requires Matches(v)
    ensures IsPlain(v)
  {
    if |v| == 0 {
    } else if IsDigit(v[2]) && IsDigit(v[3]) {
      Base64IsPlain(v[4..]);
      forall i | 0 <= i < |v| ensures ' ' <= v[i] < 0x80 as char && v[i] != '"' && v[i] != '\\' {
        if 4 <= i {
          assert v[i] == v[4..][i - 4];
        }
      }
    } else {
    }
  }

  lemma NameSize(name: string)
    ensures Utf8Length(Quoted(name)) <= 6 * |name| + 2
    ensures name in ENVELOPE_KEYS ==> |name| <= 10
    ensures name in REQUEST_KEYS ==> |name| <= 12
  {
    QuotedSize(name);
  }

  lemma TextFieldSize(name: string, text: string)
    ensures FieldSize(Field(name, Str(text))) <= 6 * |name| + 5 + (if IsPlain(text) then |text| else 6 * |text|)
  {
    NameSize(name);
    QuotedSize(text);
  }

  lemma NumberFieldSize(name: string, n: nat)
    requires n <= MAX_SAFE_INTEGER
    ensures FieldSize(Field(name, Int(n))) <= 6 * |name| + 19
  {
    NameSize(name);
    assert Power10(4) == 10000 && Power10(8) == 10000 * Power10(4);
    assert Power10(12) == 10000 * Power10(8) && Power10(16) == 10000 * Power10(12);
    DecimalSize(n, 16, Power10(16));
  }

  lemma OneFieldSize(name: string)
    ensures FieldSize(Field(name, Int(1))) <= 6 * |name| + 4
  {
    NameSize(name);
    Utf8Ascii(Decimal(1));
  }

  lemma NestedFieldSize(name: string, value: Json)
    requires Printable(value)
    ensures FieldSize(Field(name, value)) <= 6 * |name| + 3 + Utf8Length(Stringify(value))
  {
    NameSize(name);
  }

  /** The bound of one envelope field: the ciphertext may take 2827 bytes, any other 129. */
  lemma EnvelopeFieldSize(envelope: Json, i: nat)
    requires ValidEnvelope(envelope) && Distinct(envelope.fields) && i < |envelope.fields|
    ensures Printable(envelope.fields[i].value)
    ensures FieldSize(envelope.fields[i]) <= if envelope.fields[i].name == "ciphertext" then 2827 else 129
  {
    var fields := envelope.fields;
    hide Canonical, FieldSize, Distinct, IsUuid;
    KeysDiffer();
    ExactlyTheseKeys(fields, ENVELOPE_KEYS);
    var name := fields[i].name;
    var value := Get(fields, name);
    assert fields[i] == Field(name, value);
    NameSize(name);
    if name == "version" {
      NumberFieldSize(name, 1);
    } else {
      EnvelopeText(envelope, name);
      TextFieldSize(name, value.s);
    }
  }

  /** Every text of an accepted envelope is written without escapes. */
  lemma EnvelopeText(envelope: Json, name: string)
    requires ValidEnvelope(envelope) && name in ENVELOPE_KEYS && name != "version"
    ensures Has(envelope.fields, name) && Get(envelope.fields, name).Str?
    ensures var text := Get(envelope.fields, name).s;
            IsPlain(text) && |text| <= if name == "ciphertext" then 2760 else 64
  {
    hide Canonical, IsUuid, IsHex;
    var value := Get(envelope.fields, name);
    if name == "nonce" {
      CanonicalText(value, 12, 12);
    } else if name == "ciphertext" {
      CanonicalText(value, 16, 2070);
    } else if name == "key_id" {
      UuidText(value.s);
    } else {
      HexText(value.s);
    }
  }

  lemma UuidText(s: string)
    requires IsUuid(s)
    ensures IsPlain(s) && |s| == 36
  {
  }

  lemma HexText(s: string)
    requires IsHex(s)
    ensures IsPlain(s)
  {
  }

  lemma KeysDiffer()
    ensures forall i, j :: 0 <= i < j < |REQUEST_KEYS| ==> REQUEST_KEYS[i] != REQUEST_KEYS[j]
    ensures forall i, j :: 0 <= i < j < |ENVELOPE_KEYS| ==> ENVELOPE_KEYS[i] != ENVELOPE_KEYS[j]
  {
    assert REQUEST_KEYS[2][1] != REQUEST_KEYS[4][1];
  }

  lemma EnvelopeSize(envelope: Json)
    requires ValidEnvelope(envelope) && Distinct(envelope.fields)
    ensures Printable(envelope) && Utf8Length(Stringify(envelope)) <= 3350
  {
    hide Canonical, IsUuid, IsHex, Utf8Length, Stringify, StringifyFields, FieldSize;
    forall i | 0 <= i < |envelope.fields|
      ensures Printable(envelope.fields[i].value)
      ensures FieldSize(envelope.fields[i]) <= if envelope.fields[i].name == "ciphertext" then 2827 else 129
    {
      EnvelopeFieldSize(envelope, i);
    }
    FieldsSize(envelope.fields, "ciphertext", 129, 2827);
    TimesIsProduct(5, 130);
    ObjectSize(envelope.fields);
  }

  lemma AlertSize(title: string, body: string)
    requires |title| <= 9 && |body| <= 41
    ensures Printable(AlertOf(title, body)) && Utf8Length(Stringify(AlertOf(title, body))) <= 368
  {
    hide Utf8Length, Quoted, Stringify, StringifyFields, FieldSize;
    TextFieldSize("title", title);
    TextFieldSize("body", body);
    FieldsSize(AlertOf(title, body).fields, "body", 89, 275);
    TimesIsProduct(2, 90);
    ObjectSize(AlertOf(title, body).fields);
  }

  lemma ApsSize(alert: Json, sound: string)
    requires Printable(alert) && Utf8Length(Stringify(alert)) <= 368 && |sound| <= 7
    ensures Printable(ApsOf(alert, sound)) && Utf8Length(Stringify(ApsOf(alert, sound))) <= 594
  {
    hide Utf8Length, Quoted, Stringify, StringifyFields, FieldSize;
    NestedFieldSize("alert", alert);
    OneFieldSize("mutable-content");
    TextFieldSize("sound", sound);
    FieldsSize(ApsOf(alert, sound).fields, "alert", 94, 401);
    TimesIsProduct(3, 95);
    ObjectSize(ApsOf(alert, sound).fields);
  }

  /**
   * Every request the relay accepts makes a payload within the limit `send` checks, so that check never fails. The
   * texts of the fixed alert have 9, 41 and 7 characters.
   */
  lemma AcceptedPayloadFits(value: Json, now: int, title: string, body: string, sound: string)
    requires value.Obj? && Distinct(value.fields)
    requires forall i :: 0 <= i < |value.fields| && value.fields[i].value.Obj? ==>
               Distinct(value.fields[i].value.fields)
    requires Validate(value, now).Some?
    requires |title| <= 9 && |body| <= 41 && |sound| <= 7
    ensures var payload := Payload(title, body, sound, Validate(value, now).value.envelope);
            Printable(payload) && Utf8Length(Stringify(payload)) <= MAX_PAYLOAD_BYTES
  {
    var envelope := Get(value.fields, "envelope");
    assert Field("envelope", envelope) in value.fields;
    EnvelopeSize(envelope);
    PayloadSize(title, body, sound, envelope.fields);
  }

  lemma PayloadSize(title: string, body: string, sound: string, envelope: seq<Field>)
    requires |title| <= 9 && |body| <= 41 && |sound| <= 7
    requires Printable(Obj(envelope)) && Utf8Length(Stringify(Obj(envelope))) <= 3350
    ensures var payload := Payload(title, body, sound, envelope);
            Printable(payload) && Utf8Length(Stringify(payload)) <= MAX_PAYLOAD_BYTES
  {
    hide Utf8Length, Quoted, Stringify, StringifyFields, FieldSize;
    var aps := ApsOf(AlertOf(title, body), sound);
    AlertSize(title, body);
    ApsSize(AlertOf(title, body), sound);
    NestedFieldSize("aps", aps);
    NestedFieldSize("serverbee_envelope", Obj(envelope));
    FieldsSize(Payload(title, body, sound, envelope).fields, "serverbee_envelope", 615, 3461);
    TimesIsProduct(2, 616);
    ObjectSize(Payload(title, body, sound, envelope).fields);
  }

  lemma RequestFieldSize(value: Json, now: int, i: nat)
    requires value.Obj? && Distinct(value.fields) && i < |value.fields|
    requires forall i :: 0 <= i < |value.fields| && value.fields[i].value.Obj? ==>
               Distinct(value.fields[i].value.fields)
    requires Validate(value, now).Some?
    ensures Printable(value.fields[i].value)
    ensures FieldSize(value.fields[i]) <= if value.fields[i].name == "envelope" then 3401 else 1101
  {
    var fields := value.fields;
    hide FieldSize, ValidEnvelope, IsUuid, IsHex;
    KeysDiffer();
    ExactlyTheseKeys(fields, REQUEST_KEYS);
    var name := fields[i].name;
    var field := Get(fields, name);
    assert fields[i] == Field(name, field);
    NameSize(name);
    if name == "envelope" {
      EnvelopeSize(field);
      NestedFieldSize(name, field);
    } else if name == "expires_at" {
      NumberFieldSize(name, field.n);
    } else {
      RequestText(value, now, name);
      TextFieldSize(name, field.s);
    }
  }

  /** The texts of an accepted request. */
  lemma RequestText(value: Json, now: int, name: string)
    requires Validate(value, now).Some? && name in REQUEST_KEYS && name != "envelope" && name != "expires_at"
    ensures Has(value.fields, name) && Get(value.fields, name).Str?
    ensures var text := Get(value.fields, name).s;
            |text| <= 36 || (IsPlain(text) && |text| <= MAX_DEVICE_TOKEN_CHARS)
  {
    hide ValidEnvelope;
    if name == "device_token" {
      HexText(Get(value.fields, name).s);
    }
  }

  /** Every request the relay accepts fits, in its compact form, in the body the relay reads. */
  lemma AcceptedRequestFits(value: Json, now: int)
    requires value.Obj? && Distinct(value.fields)
    requires forall i :: 0 <= i < |value.fields| && value.fields[i].value.Obj? ==>
               Distinct(value.fields[i].value.fields)
    requires Validate(value, now).Some?
    ensures Printable(value) && Utf8Length(Stringify(value)) <= MAX_REQUEST_BYTES
  {
    hide Canonical, ValidEnvelope, IsUuid, IsHex, Utf8Length, Stringify, StringifyFields, FieldSize;
    forall i | 0 <= i < |value.fields|
      ensures Printable(value.fields[i].value)
      ensures FieldSize(value.fields[i]) <= if value.fields[i].name == "envelope" then 3401 else 1101
    {
      RequestFieldSize(value, now, i);
    }
    FieldsSize(value.fields, "envelope", 1101, 3401);
    TimesIsProduct(5, 1102);
    ObjectSize(value.fields);
  }

  // ---------------------------------------------------------------- what a device can open

  function EnvelopeOf(keyId: string, identity: string, nonce: Bytes, ciphertext: Bytes): Json {
    Obj([
      Field("version", Int(1)), Field("key_id", Str(keyId)), Field("identity", Str(identity)),
      Field("nonce", Str(Encode(nonce))), Field("ciphertext", Str(Encode(ciphertext)))])
  }

  function RequestOf(token: string, environment: string, eventId: string, expiresAt: int, envelope: Json): Json {
    Obj([
      Field("device_token", Str(token)), Field("environment", Str(environment)), Field("event_id", Str(eventId)),
      Field("expires_at", Int(expiresAt)), Field("envelope", envelope)])
  }

  lemma {:induction false} GetAt(fields: seq<Field>, i: nat, name: string)
    requires i < |fields| && fields[i].name == name && forall j :: 0 <= j < i ==> fields[j].name != name
    ensures Has(fields, name) && Get(fields, name) == fields[i].value
  {
    if i == 0 {
    } else {
      GetAt(fields[1..], i - 1, name);
    }
  }

  /** Looking a key up in five fields that carry the five keys in order. */
  lemma GetInOrder(fields: seq<Field>, keys: seq<string>)
    requires |fields| == |keys| == 5 && forall i :: 0 <= i < 5 ==> fields[i].name == keys[i]
    requires forall i, j :: 0 <= i < j < 5 ==> keys[i] != keys[j]
    ensures IsObject(Obj(fields), keys)
    ensures forall i :: 0 <= i < 5 ==> Has(fields, keys[i]) && Get(fields, keys[i]) == fields[i].value
  {
    forall i | 0 <= i < 5 ensures Has(fields, keys[i]) && Get(fields, keys[i]) == fields[i].value {
      GetAt(fields, i, keys[i]);
    }
  }

  lemma EncodingIsCanonical(bytes: Bytes, min: nat, max: nat)
    requires min <= |bytes| <= max
    ensures IsCanonical(Str(Encode(bytes)), min, max)
  {
    CanonicalIffEncoding(Encode(bytes), min, max);
  }

  /** The device opens 12-byte nonces and ciphertexts of 16 to 2064 bytes: the relay accepts each of those sizes. */
  lemma DeviceSizesPass(keyId: string, identity: string, nonce: Bytes, ciphertext: Bytes)
    requires IsUuid(keyId) && |identity| == 64 && IsHex(identity)
    requires |nonce| == 12 && 16 <= |ciphertext| <= 2064
    ensures ValidEnvelope(EnvelopeOf(keyId, identity, nonce, ciphertext))
    ensures |Encode(ciphertext)| <= 2760
  {
    hide IsCanonical, Encode, IsUuid, IsHex;
    EncodingIsCanonical(nonce, 12, 12);
    EncodingIsCanonical(ciphertext, 16, 2070);
    EncodeLength(ciphertext);
    var fields := EnvelopeOf(keyId, identity, nonce, ciphertext).fields;
    KeysDiffer();
    GetInOrder(fields, ENVELOPE_KEYS);
    hide Get, Has;
    assert Has(fields, ENVELOPE_KEYS[0]) && Get(fields, ENVELOPE_KEYS[0]) == fields[0].value;
    assert Has(fields, ENVELOPE_KEYS[1]) && Get(fields, ENVELOPE_KEYS[1]) == fields[1].value;
    assert Has(fields, ENVELOPE_KEYS[2]) && Get(fields, ENVELOPE_KEYS[2]) == fields[2].value;
    assert Has(fields, ENVELOPE_KEYS[3]) && Get(fields, ENVELOPE_KEYS[3]) == fields[3].value;
    assert Has(fields, ENVELOPE_KEYS[4]) && Get(fields, ENVELOPE_KEYS[4]) == fields[4].value;
  }

  lemma RequestGets(token: string, environment: string, eventId: string, expiresAt: int, envelope: Json)
    ensures var request := RequestOf(token, environment, eventId, expiresAt, envelope);
            && IsObject(request, REQUEST_KEYS)
            && HasRequestKeys(request.fields)
            && Get(request.fields, "device_token") == Str(token)
            && Get(request.fields, "environment") == Str(environment)
            && Get(request.fields, "event_id") == Str(eventId)
            && Get(request.fields, "expires_at") == Int(expiresAt)
            && Get(request.fields, "envelope") == envelope
  {
    var fields := RequestOf(token, environment, eventId, expiresAt, envelope).fields;
    KeysDiffer();
    GetInOrder(fields, REQUEST_KEYS);
    hide Get, Has;
    assert Has(fields, REQUEST_KEYS[0]) && Get(fields, REQUEST_KEYS[0]) == fields[0].value;
    assert Has(fields, REQUEST_KEYS[1]) && Get(fields, REQUEST_KEYS[1]) == fields[1].value;
    assert Has(fields, REQUEST_KEYS[2]) && Get(fields, REQUEST_KEYS[2]) == fields[2].value;
    assert Has(fields, REQUEST_KEYS[3]) && Get(fields, REQUEST_KEYS[3]) == fields[3].value;
    assert Has(fields, REQUEST_KEYS[4]) && Get(fields, REQUEST_KEYS[4]) == fields[4].value;
  }
}
