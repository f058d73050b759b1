/**
 The signed-record book and its anti-rollback pins. A digest stands for the claim it is
 taken over (digests do not collide), and signatures are checked by a parameter.
 */
module PeerPins {
  import opened Common

  // ----- records -----

  datatype DeviceRecord = DeviceRecord(deviceKey: nat, idKey: nat, signedPreKey: nat, version: nat)

  datatype Reachability = Reachability(deviceKey: nat, address: nat, identity: nat, version: nat)

  datatype Record = Record(
    userId: string, handle: string, name: string, wallet: nat,
    device: DeviceRecord, transport: Reachability, version: nat)

  datatype SignedRecord = SignedRecord(record: Record, signatures: seq<nat>)

  /** The claim the wallet signs: it names the device but not the device's keys or address. */
  datatype IdentityClaim = IdentityClaim(userId: string, handle: string, name: string, wallet: nat, deviceKey: nat, version: nat)

  function ClaimOf(r: Record): IdentityClaim {
    IdentityClaim(r.userId, r.handle, r.name, r.wallet, r.device.deviceKey, r.version)
  }

  const MAX_NAME_LEN: nat := 128
  const EMPTY_ADDRESS: nat := 0

  /** The cryptography a record is checked with. */
  datatype Checks = Checks(userIdOf: nat -> string, signed: SignedRecord -> bool, destination: Reachability -> bool)

  predicate Verifies(c: Checks, s: SignedRecord) {
    && c.signed(s)
    && s.record.userId == c.userIdOf(s.record.wallet)
    && |s.record.name| <= MAX_NAME_LEN
    && s.record.transport.deviceKey == s.record.device.deviceKey
    && c.destination(s.record.transport)
  }

  function FreshnessOf(r: Record): Freshness {
    Freshness(r.version, r.device.version, r.transport.version)
  }

  predicate AtMost(a: Freshness, b: Freshness) {
    a == b || Fresher(b, a)
  }

  // ----- pins -----

  datatype DevicePins = DevicePins(
    key: nat, stable: nat, stableDigest: DeviceRecord, transport: nat, transportDigest: Reachability)

  datatype VersionPins = VersionPins(identity: nat, identityDigest: Option<IdentityClaim>, devices: seq<DevicePins>)

  datatype Stored = Pins(pins: VersionPins) | Corrupt

  const NO_PINS := VersionPins(0, None, [])

  /** First position of the device, or the length. */
  function Find(devices: seq<DevicePins>, key: nat): (i: nat)
    ensures i <= |devices|
    ensures i < |devices| ==> devices[i].key == key
    ensures forall j :: 0 <= j < i ==> devices[j].key != key
    decreases |devices|
  {
    if devices == [] || devices[0].key == key then 0 else 1 + Find(devices[1..], key)
  }

  function DeviceMark(devices: seq<DevicePins>, key: nat): Option<DevicePins> {
    var i := Find(devices, key);
    if i < |devices| then Some(devices[i]) else None
  }

  predicate IdentityAccepted(v: VersionPins, r: Record) {
    r.version >= v.identity && (r.version == v.identity && v.identity != 0 ==> v.identityDigest == Some(ClaimOf(r)))
  }

  predicate DeviceAccepted(known: DevicePins, r: Record) {
    && r.device.version >= known.stable && (r.device.version == known.stable ==> r.device == known.stableDigest)
    && r.transport.version >= known.transport && (r.transport.version == known.transport ==> r.transport == known.transportDigest)
  }

  predicate Accepts(v: VersionPins, r: Record) {
    var known := DeviceMark(v.devices, r.device.deviceKey);
    IdentityAccepted(v, r) && (known.Some? ==> DeviceAccepted(known.value, r))
  }

  function MarkOf(r: Record): DevicePins {
    DevicePins(r.device.deviceKey, r.device.version, r.device, r.transport.version, r.transport)
  }

  /** The pins name exactly this record's version and content of every component. */
  predicate Matches(v: VersionPins, r: Record) {
    && v.identity == r.version && v.identityDigest == Some(ClaimOf(r))
    && DeviceMark(v.devices, r.device.deviceKey) == Some(MarkOf(r))
  }

  /** Accepting a record replaces the identity pin and its device's pins, and no other device's. */
  ghost predicate Pinned(before: VersionPins, r: Record, after: VersionPins) {
    && Matches(after, r)
    && forall key :: key != r.device.deviceKey ==> DeviceMark(after.devices, key) == DeviceMark(before.devices, key)
  }

  lemma {:induction false} FindAfterUpdate(devices: seq<DevicePins>, i: nat, mark: DevicePins, key: nat)
    requires i < |devices| && mark.key == devices[i].key
    ensures Find(devices[i := mark], key) == Find(devices, key)
    decreases |devices|
  {
    if i > 0 {
      assert devices[i := mark][1..] == devices[1..][i - 1 := mark];
      FindAfterUpdate(devices[1..], i - 1, mark, key);
    }
  }

  lemma {:induction false} FindAfterPush(devices: seq<DevicePins>, mark: DevicePins, key: nat)
    ensures Find(devices + [mark], key) ==
            if Find(devices, key) < |devices| || mark.key == key then Find(devices, key) else |devices| + 1
  {
    if devices != [] {
      assert (devices + [mark])[1..] == devices[1..] + [mark];
      FindAfterPush(devices[1..], mark, key);
    }
  }

  // ----- what a record pinned earlier guarantees -----

  /** Not rolled back: fresher, or the very same claims. */
  predicate NotOlder(r: Record, next: Record) {
    && AtMost(FreshnessOf(r), FreshnessOf(next))
    && (FreshnessOf(r) == FreshnessOf(next) ==> r == next)
  }

  /** The record that set the pins is accepted again, and pinning it again changes nothing. */
  lemma RecheckSucceeds(v: VersionPins, r: Record)
    requires Matches(v, r)
    ensures Accepts(v, r)
  {
  }

  /**
   Version 0 means "unset", so a pinned record guards its successors exactly when its own
   version is not 0: at version 0 a record with other content and the same version passes.
   */
  lemma GuardsIffVersioned(v: VersionPins, r: Record)
    requires Matches(v, r)
    ensures (forall next: Record :: Accepts(v, next) ==> NotOlder(r, next)) <==> r.version >= 1
  {
    if r.version == 0 {
      var renamed := r.(name := r.name + "!");
      assert renamed.name[|r.name|] == '!';
      assert |renamed.name| != |r.name|;
      assert Accepts(v, renamed) && FreshnessOf(renamed) == FreshnessOf(r) && renamed != r;
      assert !NotOlder(r, renamed);
    } else {
      forall next: Record | Accepts(v, next) ensures NotOlder(r, next) {
        if next.version == r.version {
          assert ClaimOf(next) == ClaimOf(r);
          assert next.device.deviceKey == r.device.deviceKey;
        }
      }
    }
  }

  function UnusedKey(devices: seq<DevicePins>): (key: nat)
    ensures forall i :: 0 <= i < |devices| ==> devices[i].key < key
  {
    if devices == [] then 0
    else
      var rest := UnusedKey(devices[1..]);
      if devices[0].key < rest then rest else devices[0].key + 1
  }

  /** At version 0 freshness itself can go down: another device with lower versions passes. */
  lemma UnversionedRollsBack(v: VersionPins, r: Record)
    requires Matches(v, r) && r.version == 0 && r.device.version > 0
    ensures exists next: Record :: Accepts(v, next) && !AtMost(FreshnessOf(r), FreshnessOf(next))
  {
    var key := UnusedKey(v.devices);
    var next := r.(device := DeviceRecord(key, 0, 0, 0), transport := Reachability(key, 1, 1, 0));
    assert Accepts(v, next) && !AtMost(FreshnessOf(r), FreshnessOf(next));
  }

  lemma NotOlderTransitive(a: Record, b: Record, c: Record)
    requires NotOlder(a, b) && NotOlder(b, c)
    ensures NotOlder(a, c)
  {
  }

  /** Pins only rise: a device that is retired and comes back cannot come back older. */
  ghost predicate NeverDrops(before: VersionPins, after: VersionPins) {
    && before.identity <= after.identity
    && forall key :: DeviceMark(before.devices, key).Some? ==>
         && DeviceMark(after.devices, key).Some?
         && DeviceMark(before.devices, key).value.stable <= DeviceMark(after.devices, key).value.stable
         && DeviceMark(before.devices, key).value.transport <= DeviceMark(after.devices, key).value.transport
  }

  lemma PinningNeverDrops(before: VersionPins, r: Record, after: VersionPins)
    requires Accepts(before, r) && Pinned(before, r, after)
    ensures NeverDrops(before, after)
  {
  }

  // ----- the book -----

  datatype PeerRecord = PeerRecord(userId: string, handle: string, record: SignedRecord)

  datatype Failure = NotTheirs | Unverified | NoAddress | Stale | Unknown | IdentityChanged | CorruptBook

  /** `None` is a book that does not decode. */
  datatype State = State(pins: map<string, Stored>, records: Option<seq<PeerRecord>>)

  function IndexOf(records: seq<PeerRecord>, userId: string): (i: nat)
    ensures i <= |records|
    ensures i < |records| ==> records[i].userId == userId
    ensures forall j :: 0 <= j < i ==> records[j].userId != userId
    decreases |records|
  {
    if records == [] || records[0].userId == userId then 0 else 1 + IndexOf(records[1..], userId)
  }

  function HeldIn(records: seq<PeerRecord>, userId: string): Option<SignedRecord> {
    var i := IndexOf(records, userId);
    if i < |records| then Some(records[i].record) else None
  }

  function Named(records: seq<PeerRecord>, handle: string): seq<PeerRecord> {
    if records == [] then []
    else (if records[0].handle == handle && records[0].record.record.handle == handle then [records[0]] else [])
         + Named(records[1..], handle)
  }

  /** Handles are not unique: one resolves only when exactly one entry carries it. */
  function Get(records: seq<PeerRecord>, handle: string): Option<SignedRecord> {
    var named := Named(records, handle);
    if |named| == 1 then Some(named[0].record) else None
  }

  function CountHandle(records: seq<PeerRecord>, handle: string): nat {
    if records == [] then 0 else (if records[0].handle == handle then 1 else 0) + CountHandle(records[1..], handle)
  }

  function Retained(records: seq<PeerRecord>, handle: string): seq<PeerRecord> {
    if records == [] then []
    else (if records[0].handle != handle || records[0].record.record.handle != handle then [records[0]] else [])
         + Retained(records[1..], handle)
  }

  function PinsOf(s: State, userId: string): Stored {
    if userId in s.pins then s.pins[userId] else Pins(NO_PINS)
  }

  function Held(s: State, userId: string): Option<SignedRecord> {
    if s.records.Some? then HeldIn(s.records.value, userId) else None
  }

  /** One entry per user, filed under its own user id and handle, and verified. */
  ghost predicate WellFiled(c: Checks, records: seq<PeerRecord>) {
    && (forall i :: 0 <= i < |records| ==>
          && records[i].userId == records[i].record.record.userId
          && records[i].handle == records[i].record.record.handle
          && Verifies(c, records[i].record))
    && (forall i, j :: 0 <= i < j < |records| ==> records[i].userId != records[j].userId)
  }

  /** The pins of every held record are exactly that record's. */
  ghost predicate PinsHold(s: State) {
    forall userId :: Held(s, userId).Some? ==>
      PinsOf(s, userId).Pins? && Matches(PinsOf(s, userId).pins, Held(s, userId).value.record)
  }

  ghost predicate Consistent(c: Checks, s: State) {
    (s.records.Some? ==> WellFiled(c, s.records.value)) && PinsHold(s)
  }

  lemma EmptyIsConsistent(c: Checks)
    ensures Consistent(c, State(map[], Some([])))
  {
  }

  // ----- what each operation does -----

  ghost predicate CheckEffect(before: State, after: State, userId: string, r: Record, ok: bool) {
    && after.records == before.records
    && (ok <==> PinsOf(before, userId).Pins? && Accepts(PinsOf(before, userId).pins, r))
    && (!ok ==> after == before)
    && (ok ==>
          && PinsOf(after, userId).Pins?
          && Pinned(PinsOf(before, userId).pins, r, PinsOf(after, userId).pins)
          && (Matches(PinsOf(before, userId).pins, r) ==> PinsOf(after, userId) == PinsOf(before, userId))
          && forall other :: other != userId ==> PinsOf(after, other) == PinsOf(before, other))
  }

  /** Updating or adding the user's single entry. */
  ghost predicate Filed(before: seq<PeerRecord>, after: seq<PeerRecord>, e: PeerRecord) {
    var i := IndexOf(before, e.userId);
    after == if i < |before| then before[i := e] else before + [e]
  }

  /** Why a record is refused before its versions are looked at. */
  function Refusal(c: Checks, handle: string, s: SignedRecord): Option<Failure> {
    if s.record.userId != c.userIdOf(s.record.wallet) || s.record.handle != handle then Some(NotTheirs)
    else if !Verifies(c, s) then Some(Unverified)
    else if s.record.transport.address == EMPTY_ADDRESS then Some(NoAddress)
    else None
  }

  /** A corrupt book is only noticed after the pins have advanced. */
  ghost predicate PutEffect(c: Checks, before: State, after: State, handle: string, s: SignedRecord, r: Result<(), Failure>) {
    var refusal := Refusal(c, handle, s);
    if refusal.Some? then r == Err(refusal.value) && after == before
    else
      && CheckEffect(before, after.(records := before.records), s.record.userId, s.record, r != Err(Stale))
      && (r != Err(Stale) ==> r == if before.records.Some? then Ok(()) else Err(CorruptBook))
      && (if r.Ok? then
            after.records.Some? && Filed(before.records.value, after.records.value, PeerRecord(s.record.userId, handle, s))
          else after.records == before.records)
  }

  ghost predicate ResolveEffect(c: Checks, before: State, after: State, userId: string, trusted: bool, r: Result<SignedRecord, Failure>) {
    match Held(before, userId)
    case None => after == before && r == Err(if before.records.Some? then Unknown else CorruptBook)
    case Some(s) =>
      if !Verifies(c, s) || s.record.userId != userId then r == Err(Unverified) && after == before
      else if !trusted then r == Err(IdentityChanged) && after == before
      else CheckEffect(before, after, userId, s.record, r.Ok?) && r == if r.Ok? then Ok(s) else Err(Stale)
  }

  /** Removing a peer also forgets its pins. */
  ghost predicate RemoveEffect(before: State, after: State, handle: string, r: Result<bool, Failure>) {
    match before.records
    case None => r == Err(CorruptBook) && after == before
    case Some(records) =>
      if CountHandle(records, handle) != 1 then r == Ok(false) && after == before
      else
        && after.records == Some(Retained(records, handle))
        && r == Ok(|Retained(records, handle)| != |records|)
        && (if r.value && Get(records, handle).Some?
            then after.pins == before.pins - {Get(records, handle).value.record.userId}
            else after.pins == before.pins)
  }

  class PeerBook {
    var pins: map<string, Stored>
    var records: Option<seq<PeerRecord>>

    constructor ()
      ensures View() == State(map[], Some([]))
    {
      pins, records := map[], Some([]);
    }

    function View(): State
      reads this
    {
      State(pins, records)
    }

    method FindDevice(devices: seq<DevicePins>, key: nat) returns (i: nat)
      ensures i == Find(devices, key)
    {
      i := 0;
      while i < |devices| && devices[i].key != key
        invariant i <= |devices|
        invariant forall j :: 0 <= j < i ==> devices[j].key != key
      {
        i := i + 1;
      }
    }

    /** Raises the device's pins to the record's, or adds them. */
    method MarkDevice(devices: seq<DevicePins>, i: nat, r: Record) returns (after: seq<DevicePins>)
      requires i == Find(devices, r.device.deviceKey)
      requires i < |devices| ==> DeviceAccepted(devices[i], r)
      ensures forall key :: DeviceMark(after, key) ==
                if key == r.device.deviceKey then Some(MarkOf(r)) else DeviceMark(devices, key)
      ensures DeviceMark(devices, r.device.deviceKey) == Some(MarkOf(r)) ==> after == devices
    {
      if i < |devices| {
        var known := devices[i];
        if r.device.version > known.stable {
          known := known.(stable := r.device.version, stableDigest := r.device);
        }
        if r.transport.version > known.transport {
          known := known.(transport := r.transport.version, transportDigest := r.transport);
        }
        forall key ensures Find(devices[i := known], key) == Find(devices, key) {
          FindAfterUpdate(devices, i, known, key);
        }
        after := devices[i := known];
      } else {
        var added := MarkOf(r);
        forall key ensures DeviceMark(devices + [added], key) ==
                           if key == added.key then Some(added) else DeviceMark(devices, key)
        {
          FindAfterPush(devices, added, key);
        }
        after := devices + [added];
      }
    }

    /** Accepts a record that is not behind any pin; refusing leaves the pins alone. */
    method CheckAndPin(userId: string, r: Record) returns (ok: bool)
      modifies this`pins
      ensures CheckEffect(old(View()), View(), userId, r, ok)
    {
      var stored := PinsOf(View(), userId);
      if stored.Corrupt? { return false; }
      var v := stored.pins;
      if r.version < v.identity || (r.version == v.identity && v.identity != 0 && v.identityDigest != Some(ClaimOf(r))) {
        return false;
      }
      var i := FindDevice(v.devices, r.device.deviceKey);
      if i < |v.devices| {
        var known := v.devices[i];
        if r.device.version < known.stable || (r.device.version == known.stable && r.device != known.stableDigest)
          || r.transport.version < known.transport || (r.transport.version == known.transport && r.transport != known.transportDigest)
        {
          return false;
        }
      }
      if r.version > v.identity || v.identity == 0 {
        v := v.(identity := r.version, identityDigest := Some(ClaimOf(r)));
      }
      var devices := MarkDevice(v.devices, i, r);
      v := v.(devices := devices);
      pins := pins[userId := Pins(v)];
      ok := true;
    }

    method FindRecord(entries: seq<PeerRecord>, userId: string) returns (i: nat)
      ensures i == IndexOf(entries, userId)
    {
      i := 0;
      while i < |entries| && entries[i].userId != userId
        invariant i <= |entries|
        invariant forall j :: 0 <= j < i ==> entries[j].userId != userId
      {
        i := i + 1;
      }
    }

    method Put(c: Checks, handle: string, s: SignedRecord) returns (r: Result<(), Failure>)
      modifies this
      ensures PutEffect(c, old(View()), View(), handle, s, r)
      ensures r == Ok(()) || r == Err(Stale) || r == Err(CorruptBook) <==>
              && c.signed(s) && c.userIdOf(s.record.wallet) == s.record.userId && s.record.handle == handle
              && |s.record.name| <= 128 && s.record.transport.deviceKey == s.record.device.deviceKey
              && c.destination(s.record.transport) && s.record.transport.address != 0
    {
      if s.record.userId != c.userIdOf(s.record.wallet) || s.record.handle != handle { return Err(NotTheirs); }
      if !Verifies(c, s) { return Err(Unverified); }
      if s.record.transport.address == EMPTY_ADDRESS { return Err(NoAddress); }
      var ok := CheckAndPin(s.record.userId, s.record);
      if !ok { return Err(Stale); }
      if records.None? { return Err(CorruptBook); }
      var entries := records.value;
      var i := FindRecord(entries, s.record.userId);
      if i < |entries| {
        entries := entries[i := entries[i].(handle := handle, record := s)];
      } else {
        entries := entries + [PeerRecord(s.record.userId, handle, s)];
      }
      records := Some(entries);
      r := Ok(());
    }

    /** Looks a stored record up and checks it against the pins again; `trusted` is the wallet-change guard. */
    method ResolveUserRecord(c: Checks, userId: string, trusted: bool) returns (r: Result<SignedRecord, Failure>)
      modifies this`pins
      ensures ResolveEffect(c, old(View()), View(), userId, trusted, r)
      ensures r.Ok? ==> trusted && Held(old(View()), userId) == Some(r.value)
      ensures !trusted ==> View() == old(View())
    {
      if records.None? { return Err(CorruptBook); }
      var i := FindRecord(records.value, userId);
      if i == |records.value| { return Err(Unknown); }
      var s := records.value[i].record;
      if !Verifies(c, s) || s.record.userId != userId { return Err(Unverified); }
      if !trusted { return Err(IdentityChanged); }
      var ok := CheckAndPin(userId, s.record);
      r := if ok then Ok(s) else Err(Stale);
    }

    method RemoveRecord(handle: string) returns (r: Result<bool, Failure>)
      modifies this
      ensures RemoveEffect(old(View()), View(), handle, r)
    {
      if records.None? { return Err(CorruptBook); }
      var entries := records.value;
      var record := Get(entries, handle);
      if CountHandle(entries, handle) != 1 { return Ok(false); }
      var kept := Retained(entries, handle);
      records := Some(kept);
      if |kept| != |entries| && record.Some? {
        pins := pins - {record.value.record.userId};
      }
      r := Ok(|kept| != |entries|);
    }
  }

  // ----- every operation keeps the book and its pins together -----

  /** Checking the held record again always succeeds and changes nothing. */
  lemma ResolvingHeldSucceeds(c: Checks, before: State, after: State, userId: string, r: Result<SignedRecord, Failure>)
    requires Consistent(c, before) && ResolveEffect(c, before, after, userId, true, r)
    ensures after.records == before.records && forall u :: PinsOf(after, u) == PinsOf(before, u)
    ensures Held(before, userId).Some? ==> r == Ok(Held(before, userId).value)
    ensures r.Ok? <==> Held(before, userId).Some?
  {
    if Held(before, userId).Some? {
      RecheckSucceeds(PinsOf(before, userId).pins, Held(before, userId).value.record);
    }
  }

  lemma FiledHolds(c: Checks, before: seq<PeerRecord>, after: seq<PeerRecord>, e: PeerRecord)
    requires WellFiled(c, before) && Filed(before, after, e)
    requires e.userId == e.record.record.userId && e.handle == e.record.record.handle && Verifies(c, e.record)
    ensures WellFiled(c, after)
    ensures forall u :: HeldIn(after, u) == if u == e.userId then Some(e.record) else HeldIn(before, u)
  {
    forall u ensures HeldIn(after, u) == if u == e.userId then Some(e.record) else HeldIn(before, u) {
      var i := IndexOf(before, e.userId);
      var j := IndexOf(before, u);
      if u != e.userId && j < |before| {
        assert after[j] == before[j];
        assert IndexOf(after, u) == j;
      } else if u == e.userId {
        assert after[i] == e;
        assert IndexOf(after, u) == i;
      } else {
        assert forall k :: 0 <= k < |after| ==> after[k].userId != u;
      }
    }
  }

  /** The new record is held; every other user's record and pins are as they were. */
  lemma PutKeeps(c: Checks, before: State, after: State, handle: string, s: SignedRecord, r: Result<(), Failure>)
    requires Consistent(c, before) && PutEffect(c, before, after, handle, s, r)
    ensures Consistent(c, after)
    ensures r.Ok? ==> forall u :: Held(after, u) == if u == s.record.userId then Some(s) else Held(before, u)
    ensures r.Err? ==> forall u :: Held(after, u) == Held(before, u)
  {
    if r.Ok? {
      FiledHolds(c, before.records.value, after.records.value, PeerRecord(s.record.userId, handle, s));
      forall u ensures PinsOf(after, u) == PinsOf(after.(records := before.records), u) {
      }
    }
  }

  ghost predicate SamePins(before: State, after: State) {
    forall u :: PinsOf(after, u) == PinsOf(before, u)
  }

  /** A put that will be refused for a corrupt book: everything but the book lets it through. */
  predicate HitsCorruptBook(c: Checks, s: State, handle: string, signed: SignedRecord) {
    && s.records.None? && Refusal(c, handle, signed).None?
    && PinsOf(s, signed.record.userId).Pins?
    && Accepts(PinsOf(s, signed.record.userId).pins, signed.record)
  }

  /**
   A refused put leaves every pin alone, except that one refused for a corrupt book has advanced
   the pins already, unless they were this very record's.
   */
  lemma RefusedPutKeepsPinsIff(c: Checks, before: State, after: State, handle: string, s: SignedRecord, r: Result<(), Failure>)
    requires PutEffect(c, before, after, handle, s, r) && r.Err?
    ensures r == Err(CorruptBook) <==> HitsCorruptBook(c, before, handle, s)
    ensures SamePins(before, after) <==>
            HitsCorruptBook(c, before, handle, s) ==> Matches(PinsOf(before, s.record.userId).pins, s.record)
  {
    if HitsCorruptBook(c, before, handle, s) && SamePins(before, after) {
      assert PinsOf(after, s.record.userId) == PinsOf(before, s.record.userId);
    }
  }

  /** For instance: any first record for a user, put into a book that does not decode. */
  lemma CorruptBookAdvancesPins(c: Checks, before: State, after: State, s: SignedRecord, r: Result<(), Failure>)
    requires before == State(map[], None) && Refusal(c, s.record.handle, s).None?
    requires PutEffect(c, before, after, s.record.handle, s, r)
    ensures r == Err(CorruptBook) && PinsOf(before, s.record.userId) == Pins(NO_PINS) && PinsOf(after, s.record.userId) != Pins(NO_PINS)
  {
    assert DeviceMark(NO_PINS.devices, s.record.device.deviceKey) == None;
  }

  /** Nothing about a component goes back, and it changes only under a higher version. */
  predicate NotBehind(version: nat, next: nat, same: bool) {
    next >= version && (next == version ==> same)
  }

  /**
   What a pinned record lets follow, in its own terms: on its device, exactly records none of whose
   three parts is behind; on a device never seen, exactly records of a higher identity version.
   */
  lemma AcceptedAfterPinned(v: VersionPins, r: Record, next: Record)
    requires Matches(v, r) && r.version >= 1
    ensures next.device.deviceKey == r.device.deviceKey ==>
              (Accepts(v, next) <==>
                && next.version >= r.version && next.device.version >= r.device.version && next.transport.version >= r.transport.version
                && (next.version == r.version ==>
                      next.userId == r.userId && next.handle == r.handle && next.name == r.name && next.wallet == r.wallet)
                && (next.device.version == r.device.version ==> next.device == r.device)
                && (next.transport.version == r.transport.version ==> next.transport == r.transport))
    ensures DeviceMark(v.devices, next.device.deviceKey).None? ==> (Accepts(v, next) <==> next.version > r.version)
  {
    assert MarkOf(r).key == r.device.deviceKey;
  }

  /** A device that was replaced can return under a higher identity version, with parts not behind its last ones. */
  lemma AcceptedOnReturn(v: VersionPins, r: Record, mark: DevicePins, next: Record)
    requires Matches(v, r) && r.version >= 1
    requires DeviceMark(v.devices, next.device.deviceKey) == Some(mark) && next.device.deviceKey != r.device.deviceKey
    ensures Accepts(v, next) <==>
            && next.version > r.version
            && next.device.version >= mark.stable && (next.device.version == mark.stable ==> next.device == mark.stableDigest)
            && next.transport.version >= mark.transport && (next.transport.version == mark.transport ==> next.transport == mark.transportDigest)
  {
  }

  /** A record that no check of its form refuses. */
  predicate WellFormed(c: Checks, handle: string, s: SignedRecord) {
    && c.signed(s) && c.userIdOf(s.record.wallet) == s.record.userId && s.record.handle == handle
    && |s.record.name| <= 128 && s.record.transport.deviceKey == s.record.device.deviceKey
    && c.destination(s.record.transport) && s.record.transport.address != 0
  }

  /** A well-formed record of a user never seen is filed. */
  lemma FirstPutIsFiled(c: Checks, before: State, after: State, s: SignedRecord, r: Result<(), Failure>)
    requires Consistent(c, before) && before.records.Some? && WellFormed(c, s.record.handle, s)
    requires PutEffect(c, before, after, s.record.handle, s, r)
    requires s.record.userId !in before.pins
    ensures r == Ok(()) && Held(after, s.record.userId) == Some(s)
  {
    assert PinsOf(before, s.record.userId) == Pins(NO_PINS) && DeviceMark(NO_PINS.devices, s.record.device.deviceKey) == None;
    PutKeeps(c, before, after, s.record.handle, s, r);
  }

  /** A held user's next record is filed exactly when nothing in it goes back (same device) or its identity version rises (new device). */
  lemma NextPutIffNotBehind(c: Checks, before: State, after: State, s: SignedRecord, r: Result<(), Failure>)
    requires Consistent(c, before) && WellFormed(c, s.record.handle, s)
    requires PutEffect(c, before, after, s.record.handle, s, r)
    requires Held(before, s.record.userId).Some? && Held(before, s.record.userId).value.record.version >= 1
    ensures var was := Held(before, s.record.userId).value.record;
      && (s.record.device.deviceKey == was.device.deviceKey ==>
            (r == Ok(()) <==>
              && NotBehind(was.version, s.record.version, s.record.name == was.name && s.record.handle == was.handle && s.record.wallet == was.wallet)
              && NotBehind(was.device.version, s.record.device.version, s.record.device == was.device)
              && NotBehind(was.transport.version, s.record.transport.version, s.record.transport == was.transport)))
      && (DeviceMark(PinsOf(before, s.record.userId).pins.devices, s.record.device.deviceKey).None? ==>
            (r == Ok(()) <==> s.record.version > was.version))
      && (r == Ok(()) ==> Held(after, s.record.userId) == Some(s))
      && (r == Ok(()) || r == Err(Stale))
  {
    var u := s.record.userId;
    AcceptedAfterPinned(PinsOf(before, u).pins, Held(before, u).value.record, s.record);
    HeldIsOwn(c, before.records.value, u);
    PutKeeps(c, before, after, s.record.handle, s, r);
  }

  lemma HeldIsOwn(c: Checks, records: seq<PeerRecord>, u: string)
    requires WellFiled(c, records) && HeldIn(records, u).Some?
    ensures HeldIn(records, u).value.record.userId == u
  {
  }

  lemma {:induction false} CountIsNamed(c: Checks, records: seq<PeerRecord>, handle: string)
    requires WellFiled(c, records)
    ensures |Named(records, handle)| == CountHandle(records, handle)
    ensures |Retained(records, handle)| + CountHandle(records, handle) == |records|
  {
    if records != [] {
      CountIsNamed(c, records[1..], handle);
    }
  }

  lemma HeldBehind(first: PeerRecord, rest: seq<PeerRecord>, u: string)
    ensures HeldIn([first] + rest, u) == if first.userId == u then Some(first.record) else HeldIn(rest, u)
  {
    assert ([first] + rest)[1..] == rest;
  }

  lemma {:induction false} RetainedHolds(c: Checks, records: seq<PeerRecord>, handle: string, u: string)
    requires WellFiled(c, records)
    ensures HeldIn(Retained(records, handle), u) ==
            if HeldIn(records, u).Some? && HeldIn(records, u).value.record.handle == handle then None else HeldIn(records, u)
  {
    if records != [] {
      var rest := records[1..];
      RetainedHolds(c, rest, handle, u);
      HeldBehind(records[0], rest, u);
      HeldBehind(records[0], Retained(rest, handle), u);
      assert records == [records[0]] + rest;
      if records[0].userId == u {
        assert forall k :: 0 <= k < |rest| ==> rest[k].userId != u;
        assert HeldIn(rest, u) == None;
      }
      if records[0].handle == handle {
        assert Retained(records, handle) == Retained(rest, handle);
      } else {
        assert Retained(records, handle) == [records[0]] + Retained(rest, handle);
      }
    }
  }

  lemma {:induction false} RetainedWellFiled(c: Checks, records: seq<PeerRecord>, handle: string)
    requires WellFiled(c, records)
    ensures WellFiled(c, Retained(records, handle))
    ensures forall e :: e in Retained(records, handle) ==> e in records
  {
    if records != [] {
      RetainedWellFiled(c, records[1..], handle);
      forall e | e in Retained(records[1..], handle) ensures e.userId != records[0].userId {
        assert e in records[1..];
      }
    }
  }

  /** Exactly the one peer of that handle is forgotten. */
  lemma RemoveKeeps(c: Checks, before: State, after: State, handle: string, r: Result<bool, Failure>)
    requires Consistent(c, before) && RemoveEffect(before, after, handle, r)
    ensures Consistent(c, after)
    ensures forall u :: Held(after, u) ==
              if r == Ok(true) && Held(before, u).Some? && Held(before, u).value.record.handle == handle then None else Held(before, u)
    ensures forall u :: Held(after, u).Some? ==> PinsOf(after, u) == PinsOf(before, u)
  {
    if before.records.Some? && CountHandle(before.records.value, handle) == 1 {
      var records := before.records.value;
      CountIsNamed(c, records, handle);
      RetainedWellFiled(c, records, handle);
      forall u ensures Held(after, u) ==
                       if Held(before, u).Some? && Held(before, u).value.record.handle == handle then None else Held(before, u)
        ensures Held(after, u).Some? ==> PinsOf(after, u) == PinsOf(before, u)
      {
        RetainedHolds(c, records, handle, u);
        NamedAreHeld(c, records, handle);
      }
    }
  }

  lemma {:induction false} NamedAreHeld(c: Checks, records: seq<PeerRecord>, handle: string)
    requires WellFiled(c, records)
    ensures forall e :: e in Named(records, handle) ==>
              e in records && e.record.record.handle == handle && HeldIn(records, e.userId) == Some(e.record)
  {
    if records != [] {
      NamedAreHeld(c, records[1..], handle);
      forall e | e in Named(records[1..], handle) ensures e.userId != records[0].userId && e in records {
        assert e in records[1..];
      }
    }
  }

  lemma {:induction false} HeldIsNamed(c: Checks, records: seq<PeerRecord>, handle: string, u: string)
    requires WellFiled(c, records)
    requires HeldIn(records, u).Some? && HeldIn(records, u).value.record.handle == handle
    ensures exists e :: e in Named(records, handle) && e.userId == u
  {
    if records[0].userId == u {
      assert records[0] in Named(records, handle);
    } else {
      assert records == [records[0]] + records[1..];
      HeldBehind(records[0], records[1..], u);
      HeldIsNamed(c, records[1..], handle, u);
      var e :| e in Named(records[1..], handle) && e.userId == u;
      assert e in Named(records, handle);
    }
  }

  /** Whoever is forgotten has no pins any more, and success means that someone was. */
  lemma ForgottenHasNoPins(c: Checks, before: State, after: State, handle: string, r: Result<bool, Failure>)
    requires Consistent(c, before) && RemoveEffect(before, after, handle, r)
    ensures forall u :: Held(before, u).Some? && Held(after, u).None? ==> PinsOf(after, u) == Pins(NO_PINS)
    ensures r == Ok(true) <==> before.records.Some? && CountHandle(before.records.value, handle) == 1
  {
    RemoveKeeps(c, before, after, handle, r);
    if before.records.Some? {
      CountIsNamed(c, before.records.value, handle);
      NamedAreHeld(c, before.records.value, handle);
      forall u | Held(before, u).Some? && Held(after, u).None? ensures PinsOf(after, u) == Pins(NO_PINS) {
        HeldIsNamed(c, before.records.value, handle, u);
      }
    }
  }

  /** A handle resolves exactly when one entry carries it, and then to that entry's record. */
  lemma GetIffUnique(c: Checks, records: seq<PeerRecord>, handle: string)
    requires WellFiled(c, records)
    ensures Get(records, handle).Some? <==> CountHandle(records, handle) == 1
    ensures Get(records, handle).Some? ==>
              var s := Get(records, handle).value;
              s.record.handle == handle && HeldIn(records, s.record.userId) == Some(s)
  {
    CountIsNamed(c, records, handle);
    NamedAreHeld(c, records, handle);
  }

  // ----- whole runs -----

  datatype Op =
    | Put(handle: string, signed: SignedRecord)
    | Resolve(userId: string, trusted: bool)
    | Remove(name: string)

  ghost predicate Step(c: Checks, op: Op, before: State, after: State) {
    match op
    case Put(handle, s) => exists r :: PutEffect(c, before, after, handle, s, r)
    case Resolve(userId, trusted) => exists r :: ResolveEffect(c, before, after, userId, trusted, r)
    case Remove(name) => exists r :: RemoveEffect(before, after, name, r)
  }

  /** While a user stays in the book its record only gets fresher and none of its pins falls. */
  ghost predicate Advances(before: State, after: State, u: string) {
    && Held(before, u).Some? && Held(after, u).Some?
    && NotOlder(Held(before, u).value.record, Held(after, u).value.record)
    && Held(after, u).value.record.version >= Held(before, u).value.record.version
    && PinsOf(before, u).Pins? && PinsOf(after, u).Pins?
    && NeverDrops(PinsOf(before, u).pins, PinsOf(after, u).pins)
  }

  lemma StepKeeps(c: Checks, op: Op, before: State, after: State, u: string)
    requires Consistent(c, before) && Step(c, op, before, after)
    ensures Consistent(c, after)
    ensures Held(before, u).Some? && Held(after, u).Some? && Held(before, u).value.record.version >= 1 ==> Advances(before, after, u)
  {
    match op {
      case Put(handle, s) => {
        var r :| PutEffect(c, before, after, handle, s, r);
        PutKeeps(c, before, after, handle, s, r);
        if Held(before, u).Some? && Held(before, u).value.record.version >= 1 {
          PutAdvances(c, before, after, handle, s, r, u);
        }
      }
      case Resolve(userId, trusted) => {
        var r :| ResolveEffect(c, before, after, userId, trusted, r);
        if trusted {
          ResolvingHeldSucceeds(c, before, after, userId, r);
        }
        assert forall v :: PinsOf(after, v) == PinsOf(before, v) && Held(after, v) == Held(before, v);
      }
      case Remove(name) => {
        var r :| RemoveEffect(before, after, name, r);
        RemoveKeeps(c, before, after, name, r);
      }
    }
  }

  lemma PutAdvances(c: Checks, before: State, after: State, handle: string, s: SignedRecord, r: Result<(), Failure>, u: string)
    requires Consistent(c, before) && Consistent(c, after) && PutEffect(c, before, after, handle, s, r)
    requires r.Ok? ==> forall u :: Held(after, u) == if u == s.record.userId then Some(s) else Held(before, u)
    requires r.Err? ==> forall u :: Held(after, u) == Held(before, u)
    requires Held(before, u).Some? && Held(before, u).value.record.version >= 1
    ensures Advances(before, after, u)
  {
    var was := Held(before, u).value.record;
    if r.Ok? && u == s.record.userId {
      GuardsIffVersioned(PinsOf(before, u).pins, was);
      PinningNeverDrops(PinsOf(before, u).pins, s.record, PinsOf(after, u).pins);
    } else {
      assert PinsOf(after, u) == PinsOf(before, u);
    }
  }

  ghost predicate Run(c: Checks, ops: seq<Op>, states: seq<State>) {
    && |states| == |ops| + 1
    && forall k: nat :: k < |ops| ==> Step(c, ops[k], states[k], states[k + 1])
  }

  lemma AdvancesTransitive(a: State, b: State, d: State, u: string)
    requires Advances(a, b, u) && Advances(b, d, u)
    ensures Advances(a, d, u)
  {
    NotOlderTransitive(Held(a, u).value.record, Held(b, u).value.record, Held(d, u).value.record);
  }

  /**
   In any run of puts, look-ups and removals, as long as a user stays in the book its record
   never gets older, and two records of equal freshness are the same claims.
   */
  lemma {:induction false} EveryRunIsMonotone(c: Checks, ops: seq<Op>, states: seq<State>, u: string)
    requires Run(c, ops, states) && Consistent(c, states[0])
    ensures Consistent(c, states[|ops|])
    ensures (forall k: nat :: k <= |ops| ==> Held(states[k], u).Some?) && Held(states[0], u).value.record.version >= 1 ==>
              Advances(states[0], states[|ops|], u)
    decreases |ops|
  {
    if ops != [] {
      var n := |ops| - 1;
      assert Run(c, ops[..n], states[..|ops|]);
      EveryRunIsMonotone(c, ops[..n], states[..|ops|], u);
      StepKeeps(c, ops[n], states[n], states[n + 1], u);
      if (forall k: nat :: k <= |ops| ==> Held(states[k], u).Some?) && Held(states[0], u).value.record.version >= 1 {
        assert forall k: nat :: k <= n ==> states[..|ops|][k] == states[k];
        AdvancesTransitive(states[0], states[n], states[n + 1], u);
      }
    }
  }
}
