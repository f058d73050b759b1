/**
 Direct envelopes: size-bucket padding, and sealing for one device by a fresh X3DH
 handshake. Key agreement, derivation and the AEAD are parameters with stated laws.
 */
module Envelopes {
  import opened Common
  import opened PeerPins

  // ----- padding -----

  const U32_RANGE: nat := 0x1_0000_0000
  const BUCKETS: seq<nat> := [256, 1024, 4096, 16384, 65536, 262144]

  function LittleEndian(n: nat): (b: Bytes)
    ensures |b| == 4
  {
    [(n % 256) as byte, (n / 256 % 256) as byte, (n / 65536 % 256) as byte, (n / 16777216 % 256) as byte]
  }

  function FromLittleEndian(b: Bytes): nat
    requires |b| == 4
  {
    b[0] as nat + 256 * b[1] as nat + 65536 * b[2] as nat + 16777216 * b[3] as nat
  }

  /** Writing the length as a `u32` keeps only its low 32 bits. */
  lemma LengthTruncates(n: nat)
    ensures FromLittleEndian(LittleEndian(n)) == n % U32_RANGE
  {
    var q1, q2, q3, q4 := n / 256, n / 65536, n / 16777216, n / U32_RANGE;
    assert q2 == q1 / 256 && q3 == q2 / 256 && q4 == q3 / 256;
    assert n == 256 * q1 + n % 256 && q1 == 256 * q2 + q1 % 256 && q2 == 256 * q3 + q2 % 256 && q3 == 256 * q4 + q3 % 256;
  }

  function FirstAtLeast(buckets: seq<nat>, needed: nat): (r: Option<nat>)
    ensures r.Some? ==> r.value in buckets && needed <= r.value
    ensures r.None? ==> forall b :: b in buckets ==> b < needed
  {
    if buckets == [] then None
    else if buckets[0] >= needed then Some(buckets[0])
    else
      assert buckets == [buckets[0]] + buckets[1..];
      FirstAtLeast(buckets[1..], needed)
  }

  function DivCeil(a: nat, b: nat): nat
    requires b > 0
  {
    (a + b - 1) / b
  }

  function Target(needed: nat): nat {
    match FirstAtLeast(BUCKETS, needed)
    case Some(b) => b
    case None => DivCeil(needed, 65536) * 65536
  }

  predicate IsPaddedSize(n: nat) {
    n in BUCKETS || n % 65536 == 0
  }

  /** Each bucket is larger than the one before and at most four times it. */
  predicate Stepped(buckets: seq<nat>) {
    forall i :: 0 <= i < |buckets| - 1 ==> buckets[i] < buckets[i + 1] <= 4 * buckets[i]
  }

  lemma {:induction false} FirstIsLeast(buckets: seq<nat>, needed: nat)
    requires Stepped(buckets) && FirstAtLeast(buckets, needed).Some?
    ensures forall i :: 0 <= i < |buckets| && buckets[i] >= needed ==> FirstAtLeast(buckets, needed).value <= buckets[i]
    ensures buckets[0] <= FirstAtLeast(buckets, needed).value
    ensures FirstAtLeast(buckets, needed).value == buckets[0] || FirstAtLeast(buckets, needed).value < 4 * needed
  {
    if buckets[0] < needed {
      FirstIsLeast(buckets[1..], needed);
      forall i | 0 <= i < |buckets| && buckets[i] >= needed ensures FirstAtLeast(buckets, needed).value <= buckets[i] {
        assert buckets[i] == buckets[1..][i - 1];
      }
    } else {
      forall i | 0 <= i < |buckets| ensures buckets[0] <= buckets[i] { SteppedRises(buckets, i); }
    }
  }

  lemma {:induction false} SteppedRises(buckets: seq<nat>, i: nat)
    requires Stepped(buckets) && i < |buckets|
    ensures buckets[0] <= buckets[i]
  {
    if i > 0 { SteppedRises(buckets, i - 1); }
  }

  lemma RoundedUp(needed: nat)
    ensures needed <= DivCeil(needed, 65536) * 65536 < needed + 65536
    ensures forall n: nat :: needed <= n && n % 65536 == 0 ==> DivCeil(needed, 65536) * 65536 <= n
  {
    var k := DivCeil(needed, 65536);
    assert 65536 * k < needed + 65536 && needed <= 65536 * k;
    forall n: nat | needed <= n && n % 65536 == 0 ensures k * 65536 <= n {
      assert n == n / 65536 * 65536;
      assert n / 65536 >= k;
    }
  }

  /** The padded size is the smallest one allowed that holds the frame, and at most quadruples it. */
  lemma TargetIsTight(needed: nat)
    requires needed > 0
    ensures needed <= Target(needed) && IsPaddedSize(Target(needed))
    ensures forall n: nat :: needed <= n && (n in BUCKETS || (n % 65536 == 0 && n > 262144)) ==> Target(needed) <= n
    ensures needed > 64 ==> Target(needed) < 4 * needed
  {
    RoundedUp(needed);
    assert BUCKETS[0] == 256 && BUCKETS[5] == 262144;
    if FirstAtLeast(BUCKETS, needed).Some? {
      FirstIsLeast(BUCKETS, needed);
      assert Target(needed) <= 262144 by {
        assert FirstAtLeast(BUCKETS, needed).value in BUCKETS;
      }
    } else {
      assert BUCKETS[5] in BUCKETS;
    }
  }

  function Padded(payload: Bytes): Bytes {
    var needed := 4 + |payload|;
    LittleEndian(|payload|) + payload + Zeros(if Target(needed) >= needed then Target(needed) - needed else 0)
  }

  function Zeros(n: nat): Bytes {
    seq(n, _ => 0 as byte)
  }

  method PadBucket(payload: Bytes) returns (out: Bytes)
    ensures out == Padded(payload)
    ensures |out| == Target(4 + |payload|) && IsPaddedSize(|out|) && |out| >= 4 + |payload|
    ensures FromLittleEndian(out[..4]) == |payload| % U32_RANGE && out[4..4 + |payload|] == payload
    ensures forall i :: 4 + |payload| <= i < |out| ==> out[i] == 0
  {
    var needed := 4 + |payload|;
    TargetIsTight(needed);
    out := LittleEndian(|payload|);
    out := out + payload;
    out := out + Zeros(Target(needed) - |out|);
    FrameSlices(LittleEndian(|payload|), payload, Zeros(Target(needed) - needed), |payload|);
    LengthTruncates(|payload|);
    assert forall i :: needed <= i < |out| ==> out[i] == Zeros(Target(needed) - needed)[i - needed];
  }

  datatype Malformed = TooShort | OutOfRange

  function Unpad(padded: Bytes): Result<Bytes, Malformed> {
    if |padded| < 4 then Err(TooShort)
    else
      var end := 4 + FromLittleEndian(padded[..4]);
      if end <= |padded| then Ok(padded[4..end]) else Err(OutOfRange)
  }

  lemma FrameSlices(head: Bytes, payload: Bytes, tail: Bytes, n: nat)
    requires |head| == 4 && n <= |payload|
    ensures (head + payload + tail)[..4] == head
    ensures (head + payload + tail)[4..4 + n] == payload[..n]
  {
  }

  lemma UnpadsTo(frame: Bytes, n: nat, payload: Bytes)
    requires |frame| >= 4 && FromLittleEndian(frame[..4]) == n && 4 + n <= |frame| && frame[4..4 + n] == payload
    ensures Unpad(frame) == Ok(payload)
  {
  }

  lemma UnpadPadded(payload: Bytes)
    ensures Unpad(Padded(payload)) == Ok(payload[..|payload| % U32_RANGE])
  {
    var needed, n := 4 + |payload|, |payload| % U32_RANGE;
    TargetIsTight(needed);
    var head, tail := LittleEndian(|payload|), Zeros(Target(needed) - needed);
    LengthTruncates(|payload|);
    assert n <= |payload|;
    FrameSlices(head, payload, tail, n);
    UnpadsTo(head + payload + tail, n, payload[..n]);
  }

  lemma PrefixIsWhole(b: Bytes, n: nat)
    requires n <= |b|
    ensures b[..n] == b <==> n == |b|
  {
    assert |b[..n]| == n;
  }

  /** Unpadding gives the payload back exactly when its length fits the prefix. */
  lemma PaddingRoundTrips(payload: Bytes)
    ensures Unpad(Padded(payload)) == Ok(payload) <==> |payload| < U32_RANGE
  {
    UnpadPadded(payload);
    PrefixIsWhole(payload, |payload| % U32_RANGE);
  }

  lemma PrefixIsLength(b: Bytes)
    requires |b| == 4
    ensures LittleEndian(FromLittleEndian(b)) == b
  {
    var n := FromLittleEndian(b);
    assert n / 256 == b[1] as nat + 256 * b[2] as nat + 65536 * b[3] as nat;
    assert n / 65536 == b[2] as nat + 256 * b[3] as nat;
    assert n / 16777216 == b[3] as nat;
  }

  lemma HeadSlices(frame: Bytes, head: Bytes, payload: Bytes)
    requires |head| == 4 && head + payload <= frame
    ensures frame[..4] == head && frame[4..4 + |payload|] == payload
  {
    var both := head + payload;
    assert frame[..|both|] == both;
    assert frame[..4] == both[..4] == head;
    assert frame[4..|both|] == both[4..] == payload;
  }

  lemma HeadUnpads(frame: Bytes, payload: Bytes)
    requires |payload| < U32_RANGE && LittleEndian(|payload|) + payload <= frame
    ensures Unpad(frame) == Ok(payload)
  {
    var head := LittleEndian(|payload|);
    LengthTruncates(|payload|);
    HeadSlices(frame, head, payload);
    UnpadsTo(frame, |payload|, payload);
  }

  lemma UnpadsHead(frame: Bytes, payload: Bytes)
    requires Unpad(frame) == Ok(payload)
    ensures |payload| < U32_RANGE && LittleEndian(|payload|) + payload <= frame
  {
    PrefixIsLength(frame[..4]);
    LengthTruncates(FromLittleEndian(frame[..4]));
    assert frame[..4] + frame[4..4 + |payload|] == frame[..4 + |payload|];
  }

  /** A frame is accepted as `payload` exactly when it is its length, itself and some tail. */
  lemma UnpadMeans(frame: Bytes, payload: Bytes)
    ensures Unpad(frame) == Ok(payload) <==>
            |payload| < U32_RANGE && LittleEndian(|payload|) + payload <= frame
  {
    if Unpad(frame) == Ok(payload) {
      UnpadsHead(frame, payload);
    } else if |payload| < U32_RANGE && LittleEndian(|payload|) + payload <= frame {
      HeadUnpads(frame, payload);
      assert false;
    }
  }

  // ----- key agreement -----

  /** Secrets and public keys are numbers; the all-zero agreement is 0. */
  datatype Suite = Suite(
    public: nat -> nat,
    agree: (nat, nat) -> nat,
    derive: (nat, nat, nat) -> nat,
    encrypt: (nat, Bytes, (nat, nat)) -> Bytes,
    decrypt: (nat, Bytes, (nat, nat)) -> Option<Bytes>)

  /** Agreement commutes, and only the right key with the right associated data decrypts. */
  ghost predicate Sound(s: Suite) {
    && (forall a, b :: s.agree(a, s.public(b)) == s.agree(b, s.public(a)))
    && (forall k, p, ad :: s.decrypt(k, s.encrypt(k, p, ad), ad) == Some(p))
    && (forall k, ad, k', p, ad' :: s.decrypt(k, s.encrypt(k', p, ad'), ad).Some? ==> k == k' && ad == ad')
  }

  function Tagged(k: nat, p: Bytes, ad: (nat, nat)): Bytes {
    Unary(k) + (Unary(ad.0) + (Unary(ad.1) + p))
  }

  function Untagged(k: nat, ct: Bytes, ad: (nat, nat)): Option<Bytes> {
    var head := Tagged(k, [], ad);
    if head <= ct then Some(ct[|head|..]) else None
  }

  lemma TagShows(k: nat, ad: (nat, nat), k': nat, p: Bytes, ad': (nat, nat))
    ensures Untagged(k, Tagged(k', p, ad'), ad) == if k == k' && ad == ad' then Some(p) else None
  {
    var head, ct := Tagged(k, [], ad), Tagged(k', p, ad');
    if k == k' && ad == ad' {
      assert ct == head + p;
    } else if head <= ct {
      var rest := ct[|head|..];
      assert ct == head + rest == Tagged(k, rest, ad);
      UnaryIsPrefixFree(k, k', Unary(ad.0) + (Unary(ad.1) + rest), Unary(ad'.0) + (Unary(ad'.1) + p));
      UnaryIsPrefixFree(ad.0, ad'.0, Unary(ad.1) + rest, Unary(ad'.1) + p);
      UnaryIsPrefixFree(ad.1, ad'.1, rest, p);
      assert false;
    }
  }

  /** The laws asked of a suite are consistent. */
  lemma SoundSuiteExists()
    ensures exists s: Suite :: Sound(s)
  {
    var s := Suite(
      (x: nat) => x,
      (a: nat, b: nat) => a + b,
      (a: nat, b: nat, d: nat) => a + b + d,
      Tagged,
      Untagged);
    forall k, ad, k', p, ad'
      ensures s.decrypt(k, s.encrypt(k', p, ad'), ad) == if k == k' && ad == ad' then Some(p) else None
    {
      TagShows(k, ad, k', p, ad');
    }
    assert Sound(s);
  }

  datatype Identity = Identity(messaging: nat, signedPreKey: nat)

  datatype Init = Init(initiatorKey: nat, ephemeralKey: nat)

  datatype Failure = WeakKey | BadRecord | WrongHandle | UnboundHandshake | Undecryptable | BadPadding

  datatype Envelope = Envelope(from: string, senderRecord: SignedRecord, init: Init, message: Bytes, timestamp: nat)

  function Secret(s: Suite, dh1: nat, dh2: nat, dh3: nat): Result<nat, Failure> {
    if dh1 == 0 || dh2 == 0 || dh3 == 0 then Err(WeakKey) else Ok(s.derive(dh1, dh2, dh3))
  }

  function Initiate(s: Suite, me: Identity, ephemeral: nat, theirKey: nat, theirPreKey: nat): Result<nat, Failure> {
    Secret(s, s.agree(me.messaging, theirPreKey), s.agree(ephemeral, theirKey), s.agree(ephemeral, theirPreKey))
  }

  function Respond(s: Suite, me: Identity, init: Init): Result<nat, Failure> {
    Secret(s, s.agree(me.signedPreKey, init.initiatorKey), s.agree(me.messaging, init.ephemeralKey), s.agree(me.signedPreKey, init.ephemeralKey))
  }

  /** Both sides reach the same secret, or both refuse a degenerate agreement. */
  lemma SidesAgree(s: Suite, initiator: Identity, ephemeral: nat, responder: Identity)
    requires Sound(s)
    ensures Initiate(s, initiator, ephemeral, s.public(responder.messaging), s.public(responder.signedPreKey))
         == Respond(s, responder, Init(s.public(initiator.messaging), s.public(ephemeral)))
  {
    assert s.agree(initiator.messaging, s.public(responder.signedPreKey)) == s.agree(responder.signedPreKey, s.public(initiator.messaging));
    assert s.agree(ephemeral, s.public(responder.messaging)) == s.agree(responder.messaging, s.public(ephemeral));
    assert s.agree(ephemeral, s.public(responder.signedPreKey)) == s.agree(responder.signedPreKey, s.public(ephemeral));
  }

  /** A degenerate agreement, and only that, is refused, on either side. */
  lemma WeakAgreementIsRefused(s: Suite, me: Identity, ephemeral: nat, theirKey: nat, theirPreKey: nat, init: Init)
    ensures Initiate(s, me, ephemeral, theirKey, theirPreKey) == Err(WeakKey) <==>
            s.agree(me.messaging, theirPreKey) == 0 || s.agree(ephemeral, theirKey) == 0 || s.agree(ephemeral, theirPreKey) == 0
    ensures Respond(s, me, init) == Err(WeakKey) <==>
            s.agree(me.signedPreKey, init.initiatorKey) == 0 || s.agree(me.messaging, init.ephemeralKey) == 0
            || s.agree(me.signedPreKey, init.ephemeralKey) == 0
  {
  }

  // ----- sealing and opening -----

  function Seal(s: Suite, me: Identity, handle: string, record: SignedRecord, ephemeral: nat, now: nat, device: DeviceRecord, plaintext: Bytes)
    : Result<Envelope, Failure>
  {
    match Initiate(s, me, ephemeral, device.idKey, device.signedPreKey)
    case Err(e) => Err(e)
    case Ok(secret) =>
      var message := s.encrypt(secret, Padded(plaintext), (s.public(me.messaging), device.idKey));
      Ok(Envelope(handle, record, Init(s.public(me.messaging), s.public(ephemeral)), message, now))
  }

  function Open(s: Suite, c: Checks, me: Identity, env: Envelope): Result<(string, Bytes), Failure> {
    if !Verifies(c, env.senderRecord) then Err(BadRecord)
    else if env.from != env.senderRecord.record.handle then Err(WrongHandle)
    else if env.senderRecord.record.device.idKey != env.init.initiatorKey then Err(UnboundHandshake)
    else
      match Respond(s, me, env.init)
      case Err(e) => Err(e)
      case Ok(secret) =>
        match s.decrypt(secret, env.message, (env.init.initiatorKey, s.public(me.messaging)))
        case None => Err(Undecryptable)
        case Some(padded) =>
          match Unpad(padded)
          case Err(_) => Err(BadPadding)
          case Ok(plaintext) => Ok((env.from, plaintext))
  }

  /** The sender's record is genuine, names the claimed handle and carries the sender's key. */
  predicate Binds(s: Suite, c: Checks, sender: Identity, handle: string, record: SignedRecord) {
    && Verifies(c, record)
    && handle == record.record.handle
    && record.record.device.idKey == s.public(sender.messaging)
  }

  /**
   A sealed envelope opens on the addressed device to the sealed bytes exactly when the
   sender's record binds the handshake and the length fits the padding prefix.
   */
  lemma SealedOpens(s: Suite, c: Checks, sender: Identity, handle: string, record: SignedRecord, ephemeral: nat, now: nat,
                    receiver: Identity, device: DeviceRecord, plaintext: Bytes)
    requires Sound(s)
    requires device.idKey == s.public(receiver.messaging) && device.signedPreKey == s.public(receiver.signedPreKey)
    requires Seal(s, sender, handle, record, ephemeral, now, device, plaintext).Ok?
    ensures var env := Seal(s, sender, handle, record, ephemeral, now, device, plaintext).value;
      Open(s, c, receiver, env) == Ok((handle, plaintext)) <==> Binds(s, c, sender, handle, record) && |plaintext| < U32_RANGE
  {
    SidesAgree(s, sender, ephemeral, receiver);
    PaddingRoundTrips(plaintext);
    UnpadPadded(plaintext);
  }

  /** No device with another messaging key opens it, and no envelope opens under a record that does not bind it. */
  lemma OpensOnlyWhereAddressed(s: Suite, c: Checks, sender: Identity, handle: string, record: SignedRecord, ephemeral: nat, now: nat,
                                device: DeviceRecord, plaintext: Bytes, other: Identity)
    requires Sound(s)
    requires Seal(s, sender, handle, record, ephemeral, now, device, plaintext).Ok?
    ensures var r := Open(s, c, other, Seal(s, sender, handle, record, ephemeral, now, device, plaintext).value);
      r.Ok? ==>
        && s.public(other.messaging) == device.idKey
        && Binds(s, c, sender, handle, record)
        && r.value == (handle, plaintext[..|plaintext| % U32_RANGE])
  {
    UnpadPadded(plaintext);
  }
}
