/** Exactly which requests are accepted, and as what: apps/push-relay/src/relay.ts, `validate`. */
module Validation {
  import opened Base64
  import opened Wire
  import opened Wrappers
  import Uuids

  predicate AreHex(s: string, length: nat) {
    |s| == length && forall i :: 0 <= i < |s| ==> '0' <= s[i] <= '9' || 'a' <= s[i] <= 'f'
  }

  // ---------------------------------------------------------------- looking a name up

  /** With distinct names there is one value for each, and it is the one that is found. */
  lemma {:induction false} FoundIfThere(fields: seq<Field>, name: string, value: Json)
    requires Distinct(fields)
    ensures Field(name, value) in fields <==> Has(fields, name) && Get(fields, name) == value
  {
    if Field(name, value) in fields {
      var i :| 0 <= i < |fields| && fields[i] == Field(name, value);
      GetAt(fields, i, name);
    }
  }

  // ---------------------------------------------------------------- the envelope

  /** The fields of an envelope are the five with these values, the last two as base64. */
  predicate IsEnvelopeOf(fields: seq<Field>, keyId: string, identity: string, nonce: Bytes, ciphertext: Bytes) {
    && |fields| == 5
    && Field("version", Int(1)) in fields && Field("key_id", Str(keyId)) in fields
    && Field("identity", Str(identity)) in fields && Field("nonce", Str(Encode(nonce))) in fields
    && Field("ciphertext", Str(Encode(ciphertext))) in fields
  }

  /** What an envelope must hold. */
  predicate AreEnvelopeParts(keyId: string, identity: string, nonce: Bytes, ciphertext: Bytes) {
    Uuids.IsUuid(keyId, false) && AreHex(identity, 64) && |nonce| == 12 && 16 <= |ciphertext| <= 2070
  }

  lemma CanonicalIffBytes(value: Json, min: nat, max: nat)
    ensures IsCanonical(value, min, max) <==> exists b: Bytes :: min <= |b| <= max && value == Str(Encode(b))
  {
    if value.Str? {
      CanonicalIffEncoding(value.s, min, max);
    }
    hide Canonical, Encode;
  }

  lemma EnvelopeFound(fields: seq<Field>, keyId: Json, identity: Json, nonce: Json, ciphertext: Json)
    requires Distinct(fields)
    ensures && Field("version", Int(1)) in fields && Field("key_id", keyId) in fields
            && Field("identity", identity) in fields && Field("nonce", nonce) in fields
            && Field("ciphertext", ciphertext) in fields
            <==>
            && HasEnvelopeKeys(fields)
            && Get(fields, "version") == Int(1) && Get(fields, "key_id") == keyId
            && Get(fields, "identity") == identity && Get(fields, "nonce") == nonce
            && Get(fields, "ciphertext") == ciphertext
  {
    FoundIfThere(fields, "version", Int(1));
    FoundIfThere(fields, "key_id", keyId);
    FoundIfThere(fields, "identity", identity);
    FoundIfThere(fields, "nonce", nonce);
    FoundIfThere(fields, "ciphertext", ciphertext);
    hide Has, Get, Distinct;
  }

  lemma EnvelopeKeys(fields: seq<Field>)
    ensures IsObject(Obj(fields), ENVELOPE_KEYS) <==> |fields| == 5 && HasEnvelopeKeys(fields)
  {
    assert ENVELOPE_KEYS[0] == "version" && ENVELOPE_KEYS[1] == "key_id" && ENVELOPE_KEYS[2] == "identity"
           && ENVELOPE_KEYS[3] == "nonce" && ENVELOPE_KEYS[4] == "ciphertext";
    hide Has;
  }

  lemma RequestKeys(fields: seq<Field>)
    ensures IsObject(Obj(fields), REQUEST_KEYS) <==> |fields| == 5 && HasRequestKeys(fields)
  {
    assert REQUEST_KEYS[0] == "device_token" && REQUEST_KEYS[1] == "environment" && REQUEST_KEYS[2] == "event_id"
           && REQUEST_KEYS[3] == "expires_at" && REQUEST_KEYS[4] == "envelope";
    hide Has;
  }

  /**
   * The envelopes that are accepted: five fields, which are the version 1, an identifier, 64 hexadecimal digits, and
   * the base64 of a nonce of 12 bytes and of a ciphertext of 16 to 2070.
   */
  lemma EnvelopeExactly(fields: seq<Field>)
    requires Distinct(fields)
    ensures ValidEnvelope(Obj(fields)) <==>
            exists keyId, identity, nonce: Bytes, ciphertext: Bytes ::
              IsEnvelopeOf(fields, keyId, identity, nonce, ciphertext)
              && AreEnvelopeParts(keyId, identity, nonce, ciphertext)
  {
    if ValidEnvelope(Obj(fields)) {
      var keyId, identity, nonce, ciphertext := PartsOf(fields);
    }
    forall keyId, identity, nonce: Bytes, ciphertext: Bytes |
      IsEnvelopeOf(fields, keyId, identity, nonce, ciphertext) && AreEnvelopeParts(keyId, identity, nonce, ciphertext)
      ensures ValidEnvelope(Obj(fields))
    {
      PartsMakeValid(fields, keyId, identity, nonce, ciphertext);
    }
  }

  lemma PartsMakeValid(fields: seq<Field>, keyId: string, identity: string, nonce: Bytes, ciphertext: Bytes)
    requires Distinct(fields) && IsEnvelopeOf(fields, keyId, identity, nonce, ciphertext)
    requires AreEnvelopeParts(keyId, identity, nonce, ciphertext)
    ensures ValidEnvelope(Obj(fields))
  {
    EnvelopeFound(fields, Str(keyId), Str(identity), Str(Encode(nonce)), Str(Encode(ciphertext)));
    EnvelopeKeys(fields);
    CanonicalIffBytes(Str(Encode(nonce)), 12, 12);
    CanonicalIffBytes(Str(Encode(ciphertext)), 16, 2070);
    hide Has, Get, Distinct, IsCanonical, Uuids.IsUuid, Encode, IsObject;
  }

  lemma PartsOf(fields: seq<Field>)
    returns (keyId: string, identity: string, nonce: Bytes, ciphertext: Bytes)
    requires Distinct(fields) && ValidEnvelope(Obj(fields))
    ensures IsEnvelopeOf(fields, keyId, identity, nonce, ciphertext)
    ensures AreEnvelopeParts(keyId, identity, nonce, ciphertext)
  {
    hide Has, Get, Distinct, IsCanonical, Uuids.IsUuid, Encode, IsObject;
    EnvelopeKeys(fields);
    var n, c := Get(fields, "nonce"), Get(fields, "ciphertext");
    CanonicalIffBytes(n, 12, 12);
    CanonicalIffBytes(c, 16, 2070);
    keyId, identity := Get(fields, "key_id").s, Get(fields, "identity").s;
    nonce :| 12 <= |nonce| <= 12 && n == Str(Encode(nonce));
    ciphertext :| 16 <= |ciphertext| <= 2070 && c == Str(Encode(ciphertext));
    EnvelopeFound(fields, Str(keyId), Str(identity), n, c);
  }

  // ---------------------------------------------------------------- the request

  /** The fields of a request are the five with these values. */
  predicate IsRequestOf(fields: seq<Field>, r: SendRequest) {
    && |fields| == 5
    && Field("device_token", Str(r.deviceToken)) in fields && Field("environment", Str(r.environment)) in fields
    && Field("event_id", Str(r.eventId)) in fields && Field("expires_at", Int(r.expiresAt)) in fields
    && Field("envelope", Obj(r.envelope)) in fields
  }

  /** What a request must hold. */
  predicate AreRequestParts(r: SendRequest, now: int) {
    && 2 <= |r.deviceToken| <= 1024 && |r.deviceToken| % 2 == 0 && AreHex(r.deviceToken, |r.deviceToken|)
    && (r.environment == "sandbox" || r.environment == "production")
    && Uuids.IsUuid(r.eventId, false)
    && 0 < r.expiresAt <= 0x1F_FFFF_FFFF_FFFF && r.expiresAt <= now + 1800
    && ValidEnvelope(Obj(r.envelope))
  }

  lemma RequestFound(fields: seq<Field>, r: SendRequest)
    requires Distinct(fields)
    ensures IsRequestOf(fields, r) <==>
            && |fields| == 5 && HasRequestKeys(fields)
            && Get(fields, "device_token") == Str(r.deviceToken) && Get(fields, "environment") == Str(r.environment)
            && Get(fields, "event_id") == Str(r.eventId) && Get(fields, "expires_at") == Int(r.expiresAt)
            && Get(fields, "envelope") == Obj(r.envelope)
  {
    FoundIfThere(fields, "device_token", Str(r.deviceToken));
    FoundIfThere(fields, "environment", Str(r.environment));
    FoundIfThere(fields, "event_id", Str(r.eventId));
    FoundIfThere(fields, "expires_at", Int(r.expiresAt));
    FoundIfThere(fields, "envelope", Obj(r.envelope));
    hide Has, Get, Distinct;
  }

  lemma CheckedExactly(
    token: Json, environment: Json, event: Json, expires: Json, envelope: Json, now: int, r: SendRequest)
    ensures Checked(token, environment, event, expires, envelope, now) == Some(r) <==>
            && token == Str(r.deviceToken) && environment == Str(r.environment) && event == Str(r.eventId)
            && expires == Int(r.expiresAt) && envelope == Obj(r.envelope) && AreRequestParts(r, now)
  {
    assert ValidEnvelope(envelope) ==> envelope.Obj?;
    hide Uuids.IsUuid, ValidEnvelope;
  }

  lemma AcceptedFound(fields: seq<Field>, now: int, r: SendRequest)
    ensures Validate(Obj(fields), now) == Some(r) <==>
            && |fields| == 5 && HasRequestKeys(fields)
            && Get(fields, "device_token") == Str(r.deviceToken) && Get(fields, "environment") == Str(r.environment)
            && Get(fields, "event_id") == Str(r.eventId) && Get(fields, "expires_at") == Int(r.expiresAt)
            && Get(fields, "envelope") == Obj(r.envelope) && AreRequestParts(r, now)
  {
    RequestKeys(fields);
    hide Has, Get, Uuids.IsUuid, ValidEnvelope, IsObject, Checked, AreRequestParts;
    if HasRequestKeys(fields) {
      CheckedExactly(
        Get(fields, "device_token"), Get(fields, "environment"), Get(fields, "event_id"), Get(fields, "expires_at"),
        Get(fields, "envelope"), now, r);
    }
  }

  /**
   * A value is accepted as a request exactly if its fields are the five of that request and those hold what they must:
   * whatever is not listed is refused, and each part of what is accepted is what the value has under its name.
   */
  lemma AcceptedExactly(value: Json, now: int, r: SendRequest)
    requires value.Obj? ==> Distinct(value.fields)
    ensures Validate(value, now) == Some(r) <==> value.Obj? && IsRequestOf(value.fields, r) && AreRequestParts(r, now)
  {
    if value.Obj? {
      AcceptedFound(value.fields, now, r);
      RequestFound(value.fields, r);
    }
    hide IsRequestOf, AreRequestParts, Get, HasRequestKeys, Has;
  }

  lemma ValidateIsChecked(
    token: string, environment: string, eventId: string, expiresAt: int, envelope: Json, now: int)
    ensures Validate(RequestOf(token, environment, eventId, expiresAt, envelope), now)
         == Checked(Str(token), Str(environment), Str(eventId), Int(expiresAt), envelope, now)
  {
    RequestGets(token, environment, eventId, expiresAt, envelope);
    hide Has, Get, IsObject, HasRequestKeys, RequestOf, Checked;
  }

  /** A request made of these values is accepted as them, or refused. */
  lemma RequestOfAccepted(
    token: string, environment: string, eventId: string, expiresAt: int, envelope: seq<Field>, now: int)
    ensures var request := RequestOf(token, environment, eventId, expiresAt, Obj(envelope));
            var r := SendRequest(token, environment, eventId, expiresAt, envelope);
            Validate(request, now) == if AreRequestParts(r, now) then Some(r) else None
  {
    var r := SendRequest(token, environment, eventId, expiresAt, envelope);
    ValidateIsChecked(token, environment, eventId, expiresAt, Obj(envelope), now);
    hide AreRequestParts, Checked, RequestOf, Validate;
    CheckedExactly(Str(token), Str(environment), Str(eventId), Int(expiresAt), Obj(envelope), now, r);
    var checked := Checked(Str(token), Str(environment), Str(eventId), Int(expiresAt), Obj(envelope), now);
    if checked.Some? {
      CheckedExactly(Str(token), Str(environment), Str(eventId), Int(expiresAt), Obj(envelope), now, checked.value);
    }
  }
}
