/** Exactly which contents the device accepts: apps/ios/NotificationShared/PushEnvelope.swift, `decrypt`. */
module Acceptance {
  import opened Envelope
  import opened Wrappers
  import Base64
  import Uuids

  // ---------------------------------------------------------------- what goes into opening

  /** What the box is bound to: this protocol, the key and the identity. */
  lemma AadIs(envelope: PushEnvelope)
    ensures Aad(envelope) == "ServerBee.Push.v1|" + envelope.keyId + "|" + envelope.identity
  {
  }

  lemma DataOf(bytes: Base64.Bytes, min: nat, max: nat)
    ensures IsData(Base64.Encode(bytes), min, max) <==> min <= |bytes| <= max
    ensures Base64.Matches(Base64.Encode(bytes)) && Base64.Decode(Base64.Encode(bytes)) == bytes
  {
    Base64.DecodeEncode(bytes);
    hide Base64.Encode, Base64.Decode, Base64.Matches;
  }

  lemma SealedExactly(
    envelope: PushEnvelope, key: PushContentKey, secret: Base64.Bytes, nonce: Base64.Bytes, sealed: Base64.Bytes)
    requires key.key == Base64.Encode(secret) && envelope.nonce == Base64.Encode(nonce)
    requires envelope.ciphertext == Base64.Encode(sealed)
    ensures IsSealed(envelope, key) <==>
            && envelope.version == 1 && envelope.keyId == key.keyId
            && |secret| == 32 && |nonce| == 12 && 16 <= |sealed| <= 2064
  {
    hide Base64.Encode, IsData;
    DataOf(secret, 32, 32);
    DataOf(nonce, 12, 12);
    DataOf(sealed, 16, 2064);
    Base64.EncodeLength(sealed);
  }

  /**
   * A box whose texts are the base64 of these bytes is opened with them, the last 16 of the sealed ones as the tag,
   * exactly if the version is 1, the key is the one named, and the sizes are right; otherwise nothing is opened.
   */
  lemma OpensExactly(
    platform: Platform, envelope: PushEnvelope, key: PushContentKey, secret: Base64.Bytes, nonce: Base64.Bytes,
    sealed: Base64.Bytes)
    requires key.key == Base64.Encode(secret) && envelope.nonce == Base64.Encode(nonce)
    requires envelope.ciphertext == Base64.Encode(sealed)
    ensures Open(platform, envelope, key)
         == if && envelope.version == 1 && envelope.keyId == key.keyId
               && |secret| == 32 && |nonce| == 12 && 16 <= |sealed| <= 2064
            then platform.open(secret, nonce, sealed[..|sealed| - 16], sealed[|sealed| - 16..], Aad(envelope))
            else None
  {
    hide IsSealed, IsData, Base64.Encode, Base64.Decode, Base64.Matches, Aad;
    SealedExactly(envelope, key, secret, nonce, sealed);
    DataOf(secret, 32, 32);
    DataOf(nonce, 12, 12);
    DataOf(sealed, 16, 2064);
  }

  // ---------------------------------------------------------------- the parts each kind calls for

  /** The counts of a run, each by itself and together, are at most its targets. */
  predicate IsRun(run: TaskRun) {
    && Uuids.IsUuid(run.taskId, true) && Uuids.IsUuid(run.runId, true)
    && 0 < run.total <= 100_000
    && 0 <= run.failed && 0 <= run.timedOut && 0 <= run.offline && 0 <= run.denied
    && run.failed + run.timedOut + run.offline + run.denied <= run.total
  }

  lemma RunIsExactly(run: TaskRun)
    ensures RunIsValid(run) <==> IsRun(run)
    ensures IsRun(run) ==> (RunIsSuccess(run) <==> run.failed + run.timedOut + run.offline + run.denied == 0)
  {
    hide Uuids.IsUuid;
  }

  predicate HasNoSecurityParts(c: PushContent) {
    c.serverId == None && c.securityEventId == None && c.securityEventType == None
  }

  /** A test has no parts. */
  predicate IsTest(c: PushContent) {
    c.kind == "test" && c.taskRun == None && c.alert == None && HasNoSecurityParts(c)
  }

  /** An alert has a valid target and no other part. */
  predicate IsAlert(platform: Platform, c: PushContent) {
    && c.kind == "alert" && c.taskRun == None && HasNoSecurityParts(c)
    && c.alert.Some? && AlertIsValid(c.alert.value, platform, ALERT_PREFIX)
  }

  /** A run that had no failure of any kind is a success; the event is the run. */
  predicate IsRunOutcome(c: PushContent) {
    && c.alert == None && HasNoSecurityParts(c) && c.taskRun.Some? && IsRun(c.taskRun.value)
    && c.eventId == c.taskRun.value.runId
    && var run := c.taskRun.value;
       c.kind == if run.failed + run.timedOut + run.offline + run.denied == 0 then "task_success" else "task_failure"
  }

  /** A security event names its server, itself and what it is. */
  predicate IsSecurity(c: PushContent) {
    && c.kind == "security" && c.taskRun == None && c.alert == None
    && c.serverId.Some? && Uuids.IsUuid(c.serverId.value, true)
    && c.securityEventId == Some(c.eventId)
    && c.securityEventType.Some?
    && c.securityEventType.value in {"ssh_login", "ssh_brute_force", "port_scan"}
  }

  /** An alert's target is valid by its status, and by the parts its key was made from. */
  lemma AlertIsExactly(alert: Alert, platform: Platform, bytes: Base64.Bytes, parts: seq<string>)
    requires alert.alertKey == ALERT_PREFIX + Base64.UrlForm(Base64.Encode(bytes))
    requires platform.strings(bytes) == Some(parts)
    ensures AlertIsValid(alert, platform, ALERT_PREFIX) <==>
            && alert.status in {"firing", "resolved"} && |alert.alertKey| <= 4099
            && |parts| == 4 && parts[0] != "" && parts[1] != "" && parts[3] != ""
  {
    AlertPartsAre(alert.status, platform.strings(bytes));
    hide *;
    PrefixSize();
    AlertKeyIsRead(alert, platform, ALERT_PREFIX, bytes);
  }

  lemma PrefixSize()
    ensures |ALERT_PREFIX| == 3 && ALERT_PREFIX == "v1."
  {
  }

  lemma AlertPartsAre(status: string, parts: Option<seq<string>>)
    ensures IsStatus(status) <==> status in {"firing", "resolved"}
    ensures AreAlertParts(parts) <==>
            && parts.Some? && |parts.value| == 4
            && parts.value[0] != "" && parts.value[1] != "" && parts.value[3] != ""
  {
  }

  /** The content is of one of the five kinds, with the parts that kind calls for and no others. */
  predicate IsOfItsKind(platform: Platform, c: PushContent) {
    IsTest(c) || IsAlert(platform, c) || IsRunOutcome(c) || IsSecurity(c)
  }

  lemma TargetIsExactly(platform: Platform, c: PushContent)
    ensures HasItsTarget(platform, c) <==> IsOfItsKind(platform, c)
  {
    if c.taskRun.Some? {
      RunIsExactly(c.taskRun.value);
    }
    hide RunIsValid, RunIsSuccess, IsRun, AlertIsValid, Uuids.IsUuid;
  }

  lemma AuthenticExactly(platform: Platform, envelope: PushEnvelope, key: PushContentKey, c: PushContent)
    ensures IsAuthentic(platform, envelope, key, c) <==>
            && Open(platform, envelope, key) == Some(c)
            && c.deploymentId == key.deploymentId && c.userId == key.userId
            && c.installationId == key.installationId
            && platform.identity(c.deploymentId, c.userId, c.installationId) == envelope.identity
            && Uuids.IsUuid(c.eventId, true)
            && IsOfItsKind(platform, c)
            && c.expiresAt == c.createdAt + 1800
  {
    TargetIsExactly(platform, c);
    hide Open, HasItsTarget, IsOfItsKind, Uuids.IsUuid;
  }

  lemma WindowExactly(
    platform: Platform, envelope: PushEnvelope, key: PushContentKey, now: Int64, purpose: Purpose, c: PushContent)
    ensures Decrypt(platform, envelope, key, now, purpose) == Some(c) <==>
            && IsAuthentic(platform, envelope, key, c)
            && c.createdAt - 60 <= now <= MAX - 60 && (purpose == NotificationTap || now < c.expiresAt)
  {
    DeliveryWindow(platform, envelope, key, now, c);
    assert IsAuthentic(platform, envelope, key, c) ==> c.expiresAt == c.createdAt + 1800;
    hide IsAuthentic, Decrypt;
  }

  // ---------------------------------------------------------------- main results

  /**
   * Content is accepted if and only if it is what a well-formed box opens to with the key that the box names, it is for
   * this device, of one of the five kinds, was made half an hour before it expires, and the clock is in its window:
   * from a minute before it was made and, but for a tap, until it expires.
   */
  lemma AcceptedExactly(
    platform: Platform, envelope: PushEnvelope, key: PushContentKey, secret: Base64.Bytes, nonce: Base64.Bytes,
    sealed: Base64.Bytes, now: Int64, purpose: Purpose, c: PushContent)
    requires key.key == Base64.Encode(secret) && envelope.nonce == Base64.Encode(nonce)
    requires envelope.ciphertext == Base64.Encode(sealed)
    ensures Decrypt(platform, envelope, key, now, purpose) == Some(c) <==>
            && envelope.version == 1 && envelope.keyId == key.keyId
            && |secret| == 32 && |nonce| == 12 && 16 <= |sealed| <= 2064
            && platform.open(
                 secret, nonce, sealed[..|sealed| - 16], sealed[|sealed| - 16..], Aad(envelope)) == Some(c)
            && c.deploymentId == key.deploymentId && c.userId == key.userId
            && c.installationId == key.installationId
            && platform.identity(c.deploymentId, c.userId, c.installationId) == envelope.identity
            && Uuids.IsUuid(c.eventId, true)
            && IsOfItsKind(platform, c)
            && c.expiresAt == c.createdAt + 1800
            && c.createdAt - 60 <= now <= MAX - 60 && (purpose == NotificationTap || now < c.expiresAt)
  {
    hide *;
    OpensExactly(platform, envelope, key, secret, nonce, sealed);
    AuthenticExactly(platform, envelope, key, c);
    WindowExactly(platform, envelope, key, now, purpose, c);
  }

  /** What a server seals for this device is accepted by it: content of any of the five kinds, in its window. */
  lemma SealedIsAccepted(
    platform: Platform, envelope: PushEnvelope, key: PushContentKey, secret: Base64.Bytes, nonce: Base64.Bytes,
    sealed: Base64.Bytes, now: Int64, purpose: Purpose, c: PushContent)
    requires key.key == Base64.Encode(secret) && |secret| == 32 && |nonce| == 12 && 16 <= |sealed| <= 2064
    requires envelope
          == PushEnvelope(
               1, key.keyId, platform.identity(key.deploymentId, key.userId, key.installationId),
               Base64.Encode(nonce), Base64.Encode(sealed))
    requires platform.open(
               secret, nonce, sealed[..|sealed| - 16], sealed[|sealed| - 16..], Aad(envelope)) == Some(c)
    requires c.deploymentId == key.deploymentId && c.userId == key.userId && c.installationId == key.installationId
    requires Uuids.IsUuid(c.eventId, true) && IsOfItsKind(platform, c) && c.expiresAt == c.createdAt + 1800
    requires c.createdAt - 60 <= now < c.expiresAt && now <= MAX - 60
    ensures Decrypt(platform, envelope, key, now, purpose) == Some(c)
  {
    hide *;
    AcceptedExactly(platform, envelope, key, secret, nonce, sealed, now, purpose, c);
  }
}
