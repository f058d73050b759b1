/**
 The sender's outbox: an index of delivery ids plus one stored entry per id, saved by
 writing only what differs. Reading it back gives a plain list; every operation is an
 operation on that list.
 Stored values stand for their encodings (decoding inverts encoding); a store still in
 the legacy single-blob layout is not modelled.
 */
module Outbox {
  import opened Common
  import opened Storage

  const LEGACY_KEY := "outbox"
  const INDEX_KEY := "outbox-index-v2"
  const RETRY_BASE_SECS: nat := 5
  const RETRY_MAX_SECS: nat := 3600

  datatype Status = Pending | Delivered | Failed | Cancelled

  datatype MailItem = Pairwise(envelope: Bytes) | GroupText(ciphertext: Bytes)

  datatype Entry = Entry(
    id: string, userId: string, recipient: string, slot: string, item: Option<MailItem>,
    createdAt: nat, attempts: nat, sendAfter: nat, status: Status, plaintext: Option<Bytes>)

  datatype Value = Index(ids: seq<string>) | Stored(entry: Entry) | Other(bytes: Bytes)

  datatype Error = Corrupt | MissingEntry | WrongIdentity | DuplicateIds | IdTaken | NotPairwise

  type Data = map<string, Value>

  function EntryKey(id: string): string {
    "outbox-entry-v2:" + id
  }

  lemma EntryKeysAreDistinct(id: string, id': string)
    ensures EntryKey(id) == EntryKey(id') <==> id == id'
    ensures EntryKey(id) != INDEX_KEY && EntryKey(id) != LEGACY_KEY
  {
    assert EntryKey(id)[16..] == id && EntryKey(id')[16..] == id';
    assert EntryKey(id)[7] == 'e' && INDEX_KEY[7] == 'i';
  }

  predicate IsPending(e: Entry) {
    e.status == Pending && e.item.Some?
  }

  predicate IsDue(e: Entry, now: nat) {
    IsPending(e) && now >= e.sendAfter
  }

  // ----- reading the store as a list -----

  function LoadIds(data: Data, ids: seq<string>): Result<seq<Entry>, Error> {
    if ids == [] then Ok([])
    else if EntryKey(ids[0]) !in data then Err(MissingEntry)
    else
      match data[EntryKey(ids[0])]
      case Stored(entry) =>
        if entry.id != ids[0] then Err(WrongIdentity)
        else
          (match LoadIds(data, ids[1..])
           case Err(e) => Err(e)
           case Ok(rest) => Ok([entry] + rest))
      case _ => Err(Corrupt)
  }

  function Load(data: Data): Result<seq<Entry>, Error> {
    if INDEX_KEY !in data then Ok([])
    else
      match data[INDEX_KEY]
      case Index(ids) => LoadIds(data, ids)
      case _ => Err(Corrupt)
  }

  function Ids(entries: seq<Entry>): (ids: seq<string>)
    ensures |ids| == |entries|
    ensures forall i :: 0 <= i < |ids| ==> ids[i] == entries[i].id
  {
    seq(|entries|, i requires 0 <= i < |entries| => entries[i].id)
  }

  predicate Distinct(ids: seq<string>) {
    forall i, j :: 0 <= i < j < |ids| ==> ids[i] != ids[j]
  }

  /** The store holds exactly `entries`: each under its key, in index order, and no entry key besides. */
  ghost predicate Holds(data: Data, entries: seq<Entry>) {
    && LEGACY_KEY !in data
    && Distinct(Ids(entries))
    && (INDEX_KEY in data ==> data[INDEX_KEY] == Index(Ids(entries)))
    && (INDEX_KEY !in data ==> entries == [])
    && (forall i :: 0 <= i < |entries| ==> EntryKey(entries[i].id) in data && data[EntryKey(entries[i].id)] == Stored(entries[i]))
    && (forall id :: EntryKey(id) in data ==> id in Ids(entries))
  }

  lemma {:induction false} StoredEntriesLoad(data: Data, entries: seq<Entry>)
    requires forall i :: 0 <= i < |entries| ==> EntryKey(entries[i].id) in data && data[EntryKey(entries[i].id)] == Stored(entries[i])
    ensures LoadIds(data, Ids(entries)) == Ok(entries)
  {
    if entries != [] {
      StoredEntriesLoad(data, entries[1..]);
      assert Ids(entries)[1..] == Ids(entries[1..]);
      assert [entries[0]] + entries[1..] == entries;
    }
  }

  /** What a consistent store holds is what loading returns. */
  lemma HoldsMeansLoads(data: Data, entries: seq<Entry>)
    requires Holds(data, entries)
    ensures Load(data) == Ok(entries)
  {
    StoredEntriesLoad(data, entries);
  }

  /** The entries a store holds. */
  function List(data: Data): seq<Entry> {
    match Load(data)
    case Ok(entries) => entries
    case Err(_) => []
  }

  ghost predicate Consistent(data: Data) {
    Holds(data, List(data))
  }

  predicate OutboxKey(key: string) {
    key == INDEX_KEY || key == LEGACY_KEY || (|key| >= 16 && key[..16] == "outbox-entry-v2:")
  }

  /** Nothing outside the outbox changes. */
  ghost predicate OthersKept(before: Data, after: Data) {
    forall key :: !OutboxKey(key) ==> Lookup(after, key) == Lookup(before, key)
  }

  // ----- list operations -----

  function Pow2(e: nat): nat {
    if e == 0 then 1 else 2 * Pow2(e - 1)
  }

  /** `digest` is the first byte of the hash of the entry's id. */
  function RetryDelay(attempts: nat, digest: byte): nat {
    var exponent := Min(if attempts == 0 then 0 else attempts - 1, 10);
    Min(RETRY_BASE_SECS * Pow2(exponent) + digest as nat % RETRY_BASE_SECS, RETRY_MAX_SECS)
  }

  function Finalised(e: Entry, status: Status): Entry {
    e.(status := status, item := None, plaintext := None)
  }

  function WithStatus(e: Entry, id: string, status: Status): Entry {
    if e.id != id then e
    else if status == Pending then e.(status := status, sendAfter := 0)
    else Finalised(e, status).(sendAfter := 0)
  }

  function AfterAttempt(e: Entry, id: string, now: nat, accepted: bool, digest: byte): Entry {
    if e.id != id || !IsPending(e) then e
    else if accepted then Finalised(e, Delivered).(sendAfter := 0)
    else
      var attempts := SatAdd(e.attempts, 1, U32_MAX);
      e.(attempts := attempts, sendAfter := SatAdd(now, RetryDelay(attempts, digest), U64_MAX))
  }

  function Readdressed(e: Entry, oldId: string, newId: string, slot: string, item: MailItem): Entry {
    if e.id != oldId || !IsPending(e) then e
    else e.(id := newId, slot := slot, item := Some(item), attempts := 0, sendAfter := 0)
  }

  function MadeDue(e: Entry): Entry {
    if IsPending(e) then e.(sendAfter := 0) else e
  }

  datatype Attempt = Accept | Drop | Retry

  function AfterPass(e: Entry, now: nat, attempt: Attempt, digest: byte): Entry {
    if !IsDue(e, now) then e
    else
      match attempt
      case Accept => Finalised(e, Delivered)
      case Drop => Finalised(e, Failed)
      case Retry =>
        e.(attempts := e.attempts + 1, sendAfter := SatAdd(now, RetryDelay(e.attempts + 1, digest), U64_MAX))
  }

  // ----- facts about entries -----

  /** Retries start within 5..9 seconds, double from attempt to attempt, never wait longer than an hour, never shrink, and wait the full hour exactly from attempt 11 on. */
  lemma RetryDelayBounds(attempts: nat, later: nat, digest: byte)
    requires attempts <= later
    ensures RETRY_BASE_SECS <= RetryDelay(attempts, digest) <= RetryDelay(later, digest) <= RETRY_MAX_SECS
    ensures RetryDelay(attempts, digest) == RETRY_MAX_SECS <==> attempts >= 11
    ensures attempts <= 1 ==> RetryDelay(attempts, digest) == 5 + digest as nat % 5
    ensures 1 <= attempts < 10 ==> RetryDelay(attempts + 1, digest) - digest as nat % 5 == 2 * (RetryDelay(attempts, digest) - digest as nat % 5)
  {
    assert Pow2(4) == 16 && Pow2(8) == 16 * Pow2(4) && Pow2(9) == 512 && Pow2(10) == 1024;
    Pow2Grows(Min(if attempts == 0 then 0 else attempts - 1, 10), Min(if later == 0 then 0 else later - 1, 10));
    Pow2Grows(0, Min(if attempts == 0 then 0 else attempts - 1, 10));
    if 1 <= attempts < 10 {
      assert Pow2(attempts) == 2 * Pow2(attempts - 1);
      Pow2Grows(attempts, 9);
    }
    if attempts < 11 {
      Pow2Grows(Min(if attempts == 0 then 0 else attempts - 1, 10), 9);
    }
  }

  lemma {:induction false} Pow2Grows(a: nat, b: nat)
    requires a <= b
    ensures 1 <= Pow2(a) <= Pow2(b)
    decreases b
  {
    if a > 0 {
      Pow2Grows(a - 1, b - 1);
    } else if b > 0 {
      Pow2Grows(0, b - 1);
    }
  }

  /** A final entry has erased its ciphertext and its resealing material; a pending one still has its item. */
  predicate Tidy(e: Entry) {
    (e.status == Pending <==> e.item.Some?) && (e.item.None? ==> e.plaintext.None?)
  }

  /** Attempts, passes, readdressing and "retry now" leave a final entry exactly as it is, and every operation here keeps entries tidy. */
  lemma FinalEntriesAreLeftAlone(e: Entry, id: string, newId: string, slot: string, item: MailItem, now: nat,
                                 accepted: bool, attempt: Attempt, digest: byte, status: Status)
    ensures e.status != Pending ==>
      && AfterAttempt(e, id, now, accepted, digest) == e
      && AfterPass(e, now, attempt, digest) == e
      && Readdressed(e, id, newId, slot, item) == e
      && MadeDue(e) == e
    ensures Tidy(e) ==>
      && Tidy(AfterAttempt(e, id, now, accepted, digest))
      && Tidy(AfterPass(e, now, attempt, digest))
      && Tidy(Readdressed(e, id, newId, slot, item))
      && Tidy(MadeDue(e))
      && (status != Pending ==> Tidy(WithStatus(e, id, status)))
  {
  }

  /** A marked entry is due at once, and a final mark erases its ciphertext and plaintext; nothing else changes. */
  lemma MarkMeans(before: seq<Entry>, after: seq<Entry>, id: string, status: Status, k: nat)
    requires Mapped(before, after, e => WithStatus(e, id, status)) && k < |before|
    ensures before[k].id != id ==> after[k] == before[k]
    ensures before[k].id == id ==>
              var e := before[k];
              after[k] == Entry(id, e.userId, e.recipient, e.slot, if status == Pending then e.item else None, e.createdAt, e.attempts, 0,
                                status, if status == Pending then e.plaintext else None)
  {
  }

  /** A mark without a pending guard changes a final state exactly when it names that entry and another status. */
  lemma MarkOverridesIff(before: seq<Entry>, after: seq<Entry>, id: string, status: Status, k: nat)
    requires Mapped(before, after, e => WithStatus(e, id, status)) && k < |before| && before[k].status != Pending
    ensures after[k].status != before[k].status <==> before[k].id == id && before[k].status != status
  {
  }

  /** So marking is absorbing on a whole list exactly when no final entry of that id has another status. */
  lemma MarkKeepsFinalStatesIff(before: seq<Entry>, after: seq<Entry>, id: string, status: Status)
    requires Mapped(before, after, e => WithStatus(e, id, status))
    ensures (forall k :: 0 <= k < |before| && before[k].status != Pending ==> after[k].status == before[k].status) <==>
            (forall k :: 0 <= k < |before| && before[k].status != Pending && before[k].id == id ==> before[k].status == status)
  {
    forall k | 0 <= k < |before| && before[k].status != Pending
      ensures after[k].status != before[k].status <==> before[k].id == id && before[k].status != status
    {
      MarkOverridesIff(before, after, id, status, k);
    }
  }

  // ----- counting -----

  predicate IsDelivered(e: Entry) {
    e.status == Delivered
  }

  predicate IsFailed(e: Entry) {
    e.status == Failed
  }

  function Bit(b: bool): nat {
    if b then 1 else 0
  }

  function Count(p: Entry -> bool, entries: seq<Entry>): nat {
    if entries == [] then 0 else Bit(p(entries[0])) + Count(p, entries[1..])
  }

  lemma {:induction false} CountAppend(p: Entry -> bool, entries: seq<Entry>, e: Entry)
    ensures Count(p, entries + [e]) == Count(p, entries) + Bit(p(e))
  {
    if entries == [] {
      assert entries + [e] == [e];
    } else {
      assert (entries + [e])[1..] == entries[1..] + [e];
      CountAppend(p, entries[1..], e);
    }
  }

  lemma {:induction false} CountUpdate(p: Entry -> bool, entries: seq<Entry>, k: nat, e: Entry)
    requires k < |entries|
    ensures Count(p, entries[k := e]) == Count(p, entries) - Bit(p(entries[k])) + Bit(p(e))
  {
    var updated, rest := entries[k := e], entries[1..];
    if k == 0 {
      assert updated[1..] == rest;
    } else {
      CountUpdate(p, rest, k - 1, e);
      assert updated[1..] == rest[k - 1 := e];
    }
  }

  /** Every entry that was pending before is delivered (`delivered` of them), given up or still pending. */
  predicate NothingLost(before: seq<Entry>, after: seq<Entry>, delivered: int) {
    && Count(IsDelivered, after) == Count(IsDelivered, before) + delivered
    && Count(IsPending, before) == delivered + (Count(IsFailed, after) - Count(IsFailed, before)) + Count(IsPending, after)
  }

  lemma NothingLostAppend(before: seq<Entry>, after: seq<Entry>, delivered: int, e: Entry, e': Entry, d: int)
    requires NothingLost(before, after, delivered)
    requires Bit(IsDelivered(e')) == Bit(IsDelivered(e)) + d
    requires Bit(IsPending(e)) == d + (Bit(IsFailed(e')) - Bit(IsFailed(e))) + Bit(IsPending(e'))
    ensures NothingLost(before + [e], after + [e'], delivered + d)
  {
    CountAppend(IsDelivered, before, e);
    CountAppend(IsFailed, before, e);
    CountAppend(IsPending, before, e);
    CountAppend(IsDelivered, after, e');
    CountAppend(IsFailed, after, e');
    CountAppend(IsPending, after, e');
  }

  // ----- the network-free flush pass -----

  /** One pass decides every due entry and loses none: what was pending is delivered, dropped or still pending. */
  method FlushPass(entries: seq<Entry>, now: nat, deliver: Entry -> Attempt, digest: string -> byte)
    returns (delivered: nat, remaining: seq<Entry>)
    requires forall i :: 0 <= i < |entries| && IsDue(entries[i], now) && deliver(entries[i]) == Retry ==> entries[i].attempts < U32_MAX
    ensures |remaining| == |entries|
    ensures forall i :: 0 <= i < |entries| ==> remaining[i] == AfterPass(entries[i], now, deliver(entries[i]), digest(entries[i].id))
    ensures NothingLost(entries, remaining, delivered)
    ensures forall i :: 0 <= i < |entries| ==> Passed(entries[i], now, deliver(entries[i]), digest(entries[i].id), remaining[i])
  {
    delivered, remaining := 0, [];
    var i := 0;
    while i < |entries|
      invariant 0 <= i <= |entries| && |remaining| == i
      invariant forall j :: 0 <= j < i ==> remaining[j] == AfterPass(entries[j], now, deliver(entries[j]), digest(entries[j].id))
      invariant NothingLost(entries[..i], remaining, delivered)
    {
      var entry, accepted := Decide(entries[i], now, deliver, digest);
      NothingLostAppend(entries[..i], remaining, delivered, entries[i], entry, if accepted then 1 else 0);
      if accepted {
        delivered := delivered + 1;
      }
      assert entries[..i + 1] == entries[..i] + [entries[i]];
      remaining := remaining + [entry];
      i := i + 1;
    }
    assert entries[..i] == entries;
  }

  /** What a pass makes of an entry, field by field. */
  predicate Passed(e: Entry, now: nat, attempt: Attempt, digest: byte, after: Entry) {
    if e.status != Pending || e.item.None? || now < e.sendAfter then after == e
    else
      match attempt
      case Accept => after == e.(status := Delivered, item := None, plaintext := None)
      case Drop => after == e.(status := Failed, item := None, plaintext := None)
      case Retry =>
        var due := now + RetryDelay(e.attempts + 1, digest);
        after == e.(attempts := e.attempts + 1, sendAfter := if due <= U64_MAX then due else U64_MAX)
  }

  method Decide(e: Entry, now: nat, deliver: Entry -> Attempt, digest: string -> byte) returns (entry: Entry, accepted: bool)
    requires IsDue(e, now) && deliver(e) == Retry ==> e.attempts < U32_MAX
    ensures entry == AfterPass(e, now, deliver(e), digest(e.id))
    ensures accepted <==> IsDue(e, now) && deliver(e) == Accept
  {
    entry, accepted := e, false;
    if IsDue(entry, now) {
      match deliver(entry)
      case Accept =>
        entry := Finalised(entry, Delivered);
        accepted := true;
      case Drop =>
        entry := Finalised(entry, Failed);
      case Retry =>
        entry := entry.(attempts := entry.attempts + 1);
        entry := entry.(sendAfter := SatAdd(now, RetryDelay(entry.attempts, digest(entry.id)), U64_MAX));
    }
  }

  // ----- the outbox in a store -----

  type Store = KeyValueStore<string, Value>

  method LoadAll(store: Store) returns (r: Result<seq<Entry>, Error>)
    ensures r == Load(store.data)
  {
    if INDEX_KEY !in store.data {
      return Ok([]);
    }
    if !store.data[INDEX_KEY].Index? {
      return Err(Corrupt);
    }
    var ids := store.data[INDEX_KEY].ids;
    var entries: seq<Entry> := [];
    var i := 0;
    assert ids[0..] == ids && forall rest: seq<Entry> :: entries + rest == rest;
    while i < |ids|
      invariant 0 <= i <= |ids|
      invariant LoadIds(store.data, ids) ==
                match LoadIds(store.data, ids[i..]) case Ok(rest) => Ok(entries + rest) case Err(e) => Err(e)
    {
      var key := EntryKey(ids[i]);
      assert ids[i..][1..] == ids[i + 1..];
      if key !in store.data {
        return Err(MissingEntry);
      }
      var value := store.data[key];
      if !value.Stored? {
        return Err(Corrupt);
      }
      if value.entry.id != ids[i] {
        return Err(WrongIdentity);
      }
      assert forall rest: seq<Entry> :: entries + ([value.entry] + rest) == entries + [value.entry] + rest;
      entries := entries + [value.entry];
      i := i + 1;
    }
    assert entries + [] == entries;
    r := Ok(entries);
  }

  /** `after` is `before` with the first `n` entries stored. */
  ghost predicate Gathered(before: Data, after: Data, entries: seq<Entry>, n: nat)
    requires n <= |entries|
  {
    && (forall i :: 0 <= i < n ==> Lookup(after, EntryKey(entries[i].id)) == Some(Stored(entries[i])))
    && (forall key :: (forall i :: 0 <= i < n ==> key != EntryKey(entries[i].id)) ==> Lookup(after, key) == Lookup(before, key))
  }

  /** `after` is `before` without the entries of the first `n` old ids, those in `ids` excepted. */
  ghost predicate Dropped(before: Data, after: Data, oldIds: seq<string>, ids: seq<string>, n: nat)
    requires n <= |oldIds|
  {
    && (forall i :: 0 <= i < n && oldIds[i] !in ids ==> EntryKey(oldIds[i]) !in after)
    && (forall key :: (forall i :: 0 <= i < n && oldIds[i] !in ids ==> key != EntryKey(oldIds[i])) ==>
          Lookup(after, key) == Lookup(before, key))
  }

  lemma GatherStep(before: Data, after: Data, after': Data, entries: seq<Entry>, i: nat)
    requires i < |entries| && Distinct(Ids(entries))
    requires Gathered(before, after, entries, i)
    requires if Lookup(before, EntryKey(entries[i].id)) == Some(Stored(entries[i])) then after' == after
             else after' == after[EntryKey(entries[i].id) := Stored(entries[i])]
    ensures Gathered(before, after', entries, i + 1)
  {
    var key := EntryKey(entries[i].id);
    forall j | 0 <= j < i ensures EntryKey(entries[j].id) != key {
      assert Ids(entries)[j] != Ids(entries)[i];
      EntryKeysAreDistinct(entries[j].id, entries[i].id);
    }
    assert Lookup(after, key) == Lookup(before, key);
  }

  lemma SavedHolds(data: Data, gathered: Data, dropped: Data, held: seq<Entry>, entries: seq<Entry>)
    requires Holds(data, held) && Distinct(Ids(entries))
    requires Gathered(data, gathered, entries, |entries|)
    requires Dropped(gathered, dropped, Ids(held), Ids(entries), |held|)
    ensures Holds(dropped[INDEX_KEY := Index(Ids(entries))], entries)
    ensures Lookup(dropped, INDEX_KEY) == Lookup(data, INDEX_KEY)
    ensures OthersKept(data, dropped)
  {
    forall id ensures EntryKey(id) != INDEX_KEY && EntryKey(id) != LEGACY_KEY { EntryKeysAreDistinct(id, id); }
    forall id, id' ensures EntryKey(id) == EntryKey(id') ==> id == id' { EntryKeysAreDistinct(id, id'); }
    assert Lookup(gathered, LEGACY_KEY) == None && Lookup(dropped, LEGACY_KEY) == None;
    forall i | 0 <= i < |entries| ensures Lookup(dropped, EntryKey(entries[i].id)) == Some(Stored(entries[i])) {
      assert Ids(entries)[i] in Ids(entries);
    }
    forall id | id !in Ids(entries) ensures EntryKey(id) !in dropped {
      assert forall i :: 0 <= i < |entries| ==> Ids(entries)[i] in Ids(entries) && EntryKey(id) != EntryKey(entries[i].id);
      assert Lookup(gathered, EntryKey(id)) == Lookup(data, EntryKey(id));
      if id in Ids(held) {
        var k :| 0 <= k < |held| && Ids(held)[k] == id;
        assert EntryKey(Ids(held)[k]) !in dropped;
      } else {
        assert EntryKey(id) !in gathered;
      }
    }
    forall key | !OutboxKey(key) ensures Lookup(dropped, key) == Lookup(data, key) {
      assert forall id :: OutboxKey(EntryKey(id));
    }
  }

  method ChangedEntries(data: Data, entries: seq<Entry>) returns (mutations: seq<Mutation<string, Value>>)
    requires Distinct(Ids(entries))
    ensures Gathered(data, ApplyAll(data, mutations), entries, |entries|)
  {
    mutations := [];
    var i := 0;
    while i < |entries|
      invariant 0 <= i <= |entries|
      invariant Gathered(data, ApplyAll(data, mutations), entries, i)
    {
      var key := EntryKey(entries[i].id);
      ghost var after := ApplyAll(data, mutations);
      if key !in data || data[key] != Stored(entries[i]) {
        ApplyOneMore(data, mutations, Mutation.Put(key, Stored(entries[i])));
        mutations := mutations + [Mutation.Put(key, Stored(entries[i]))];
      }
      GatherStep(data, after, ApplyAll(data, mutations), entries, i);
      i := i + 1;
    }
  }

  method DroppedEntries(ghost data: Data, puts: seq<Mutation<string, Value>>, oldIds: seq<string>, ids: seq<string>)
    returns (mutations: seq<Mutation<string, Value>>)
    ensures Dropped(ApplyAll(data, puts), ApplyAll(data, mutations), oldIds, ids, |oldIds|)
  {
    mutations := puts;
    var i := 0;
    while i < |oldIds|
      invariant 0 <= i <= |oldIds|
      invariant Dropped(ApplyAll(data, puts), ApplyAll(data, mutations), oldIds, ids, i)
    {
      if oldIds[i] !in ids {
        ApplyOneMore(data, mutations, Mutation.Delete(EntryKey(oldIds[i])));
        mutations := mutations + [Mutation.Delete(EntryKey(oldIds[i]))];
      }
      i := i + 1;
    }
  }

  /**
   Saving writes only the difference, in one batch: afterwards the store holds exactly the given
   entries. Entries that share an id are refused and nothing changes.
   */
  method Save(store: Store, entries: seq<Entry>) returns (r: Result<(), Error>)
    requires Consistent(store.data)
    modifies store
    ensures Distinct(Ids(entries)) ==> r.Ok? && Consistent(store.data) && List(store.data) == entries
    ensures !Distinct(Ids(entries)) ==> r == Err(DuplicateIds) && store.data == old(store.data)
    ensures OthersKept(old(store.data), store.data)
  {
    ghost var data, held := store.data, List(store.data);
    var oldIds := if INDEX_KEY in store.data then store.data[INDEX_KEY].ids else [];
    assert oldIds == Ids(held);
    var ids := Ids(entries);
    if !Distinct(ids) {
      return Err(DuplicateIds);
    }
    var puts := ChangedEntries(store.data, entries);
    var mutations := DroppedEntries(store.data, puts, oldIds, ids);
    ghost var dropped := ApplyAll(data, mutations);
    SavedHolds(data, ApplyAll(data, puts), dropped, held, entries);
    var index := Index(ids);
    if INDEX_KEY !in store.data || store.data[INDEX_KEY] != index {
      ApplyOneMore(data, mutations, Mutation.Put(INDEX_KEY, index));
      mutations := mutations + [Mutation.Put(INDEX_KEY, index)];
    } else {
      assert dropped[INDEX_KEY := index] == dropped;
    }
    store.ApplyBatch(mutations);
    HoldsMeansLoads(store.data, entries);
    r := Ok(());
  }

  // ----- operations on the store -----

  /** Each entry became what `f` makes of it. */
  ghost predicate Mapped(before: seq<Entry>, after: seq<Entry>, f: Entry -> Entry) {
    |after| == |before| && forall i :: 0 <= i < |before| ==> after[i] == f(before[i])
  }

  /** An id already in use is accepted only for the same recipient and slot, and then nothing changes. */
  method Enqueue(store: Store, id: string, userId: string, recipient: string, slot: string, item: MailItem,
                 plaintext: Option<Bytes>, now: nat, sendAfter: nat) returns (r: Result<(), Error>)
    requires Consistent(store.data)
    modifies store
    ensures Consistent(store.data) && OthersKept(old(store.data), store.data)
    ensures var before := old(List(store.data));
      if plaintext.Some? && item.GroupText? then r == Err(NotPairwise) && List(store.data) == before
      else if exists e :: e in before && e.id == id then
        && List(store.data) == before
        && (r.Ok? <==> exists e :: e in before && e.id == id && e.userId == userId && e.slot == slot)
      else
        r.Ok? && List(store.data) == before + [Entry(id, userId, recipient, slot, Some(item), now, 0, sendAfter, Pending, plaintext)]
  {
    if plaintext.Some? && item.GroupText? {
      return Err(NotPairwise);
    }
    HoldsMeansLoads(store.data, List(store.data));
    var entries := ListAll(store);
    var at := Find(entries, id);
    if at < |entries| {
      UniqueId(entries, at);
      assert entries[at] in entries;
      return if entries[at].userId == userId && entries[at].slot == slot then Ok(()) else Err(IdTaken);
    }
    var entry := Entry(id, userId, recipient, slot, Some(item), now, 0, sendAfter, Pending, plaintext);
    AddedIsDistinct(entries, entry);
    r := Save(store, entries + [entry]);
  }

  lemma AddedIsDistinct(entries: seq<Entry>, entry: Entry)
    requires Distinct(Ids(entries)) && forall i :: 0 <= i < |entries| ==> entries[i].id != entry.id
    ensures Distinct(Ids(entries + [entry]))
    ensures !exists e :: e in entries && e.id == entry.id
  {
    assert Ids(entries + [entry]) == Ids(entries) + [entry.id];
    assert forall i :: 0 <= i < |entries| ==> Ids(entries)[i] == entries[i].id;
  }

  method ListAll(store: Store) returns (entries: seq<Entry>)
    requires Consistent(store.data)
    ensures entries == List(store.data) && Distinct(Ids(entries))
  {
    HoldsMeansLoads(store.data, List(store.data));
    var r := LoadAll(store);
    entries := r.value;
  }

  method Find(entries: seq<Entry>, id: string) returns (at: nat)
    ensures at <= |entries|
    ensures at < |entries| ==> entries[at].id == id
    ensures forall i :: 0 <= i < at ==> entries[i].id != id
  {
    at := 0;
    while at < |entries| && entries[at].id != id
      invariant at <= |entries|
      invariant forall i :: 0 <= i < at ==> entries[i].id != id
    {
      at := at + 1;
    }
  }

  lemma UniqueId(entries: seq<Entry>, k: nat)
    requires Distinct(Ids(entries)) && k < |entries|
    ensures forall i :: 0 <= i < |entries| && entries[i].id == entries[k].id ==> i == k
  {
    assert forall i :: 0 <= i < |entries| ==> Ids(entries)[i] == entries[i].id;
  }

  lemma MappedAtOne(before: seq<Entry>, after: seq<Entry>, f: Entry -> Entry, k: nat)
    requires Distinct(Ids(before)) && k < |before| && Mapped(before, after, f)
    requires forall e: Entry :: e.id != before[k].id ==> f(e) == e
    ensures after == before[k := f(before[k])]
  {
    UniqueId(before, k);
  }

  lemma SameIdsDistinct(before: seq<Entry>, after: seq<Entry>)
    requires |before| == |after| && Distinct(Ids(before))
    requires forall i :: 0 <= i < |before| ==> after[i].id == before[i].id
    ensures Distinct(Ids(after))
  {
    assert Ids(after) == Ids(before);
  }

  /** `mark_delivered`, `mark_cancelled` and `mark_failed`: no pending guard, so a late mark overrides a final state. */
  method SetStatus(store: Store, id: string, status: Status) returns (found: bool)
    requires Consistent(store.data)
    modifies store
    ensures Consistent(store.data) && OthersKept(old(store.data), store.data)
    ensures Mapped(old(List(store.data)), List(store.data), e => WithStatus(e, id, status))
    ensures found <==> exists e :: e in old(List(store.data)) && e.id == id
  {
    var before := ListAll(store);
    var entries := before;
    found := false;
    var i := 0;
    while i < |entries|
      invariant 0 <= i <= |entries| == |before|
      invariant forall j :: 0 <= j < i ==> entries[j] == WithStatus(before[j], id, status)
      invariant forall j :: i <= j < |before| ==> entries[j] == before[j]
      invariant found <==> exists j :: 0 <= j < i && before[j].id == id
    {
      if entries[i].id == id {
        var entry := entries[i].(status := status, sendAfter := 0);
        if status != Pending {
          entry := entry.(item := None, plaintext := None);
        }
        entries := entries[i := entry];
        found := true;
      }
      i := i + 1;
    }
    if found {
      SameIdsDistinct(before, entries);
      var saved := Save(store, entries);
    }
  }

  method MakeAllDue(store: Store)
    requires Consistent(store.data)
    modifies store
    ensures Consistent(store.data) && OthersKept(old(store.data), store.data)
    ensures Mapped(old(List(store.data)), List(store.data), MadeDue)
    ensures forall k :: 0 <= k < |old(List(store.data))| ==>
              var e := old(List(store.data))[k];
              List(store.data)[k] == if e.status == Pending && e.item.Some? then e.(sendAfter := 0) else e
    ensures forall e, now :: e in List(store.data) && IsPending(e) ==> IsDue(e, now)
  {
    var before := ListAll(store);
    var entries := before;
    var i := 0;
    while i < |entries|
      invariant 0 <= i <= |entries| == |before|
      invariant forall j :: 0 <= j < i ==> entries[j] == MadeDue(before[j])
      invariant forall j :: i <= j < |before| ==> entries[j] == before[j]
    {
      if IsPending(entries[i]) {
        entries := entries[i := entries[i].(sendAfter := 0)];
      }
      i := i + 1;
    }
    SameIdsDistinct(before, entries);
    var saved := Save(store, entries);
  }

  method AttemptedEntries(entries: seq<Entry>, id: string, now: nat, accepted: bool, digest: string -> byte)
    returns (remaining: seq<Entry>, found: bool)
    ensures Mapped(entries, remaining, e => AfterAttempt(e, id, now, accepted, digest(id)))
    ensures found <==> exists j :: 0 <= j < |entries| && entries[j].id == id && IsPending(entries[j])
  {
    remaining, found := [], false;
    var i := 0;
    while i < |entries|
      invariant 0 <= i <= |entries| && |remaining| == i
      invariant forall j :: 0 <= j < i ==> remaining[j] == AfterAttempt(entries[j], id, now, accepted, digest(id))
      invariant found <==> exists j :: 0 <= j < i && entries[j].id == id && IsPending(entries[j])
    {
      var entry := entries[i];
      if entry.id == id && IsPending(entry) {
        found := true;
        if accepted {
          entry := entry.(status := Delivered, sendAfter := 0, item := None, plaintext := None);
        } else {
          entry := entry.(attempts := SatAdd(entry.attempts, 1, U32_MAX));
          entry := entry.(sendAfter := SatAdd(now, RetryDelay(entry.attempts, digest(entry.id)), U64_MAX));
        }
      }
      remaining := remaining + [entry];
      i := i + 1;
    }
  }

  method RecordAttempt(store: Store, id: string, now: nat, accepted: bool, digest: string -> byte) returns (found: bool)
    requires Consistent(store.data)
    modifies store
    ensures Consistent(store.data) && OthersKept(old(store.data), store.data)
    ensures Mapped(old(List(store.data)), List(store.data), e => AfterAttempt(e, id, now, accepted, digest(id)))
    ensures found <==> exists e :: e in old(List(store.data)) && e.id == id && IsPending(e)
    ensures !found ==> List(store.data) == old(List(store.data))
    ensures found ==> OneAttempted(old(List(store.data)), List(store.data), id, now, accepted, digest(id))
  {
    var entries := ListAll(store);
    var remaining;
    remaining, found := AttemptedEntries(entries, id, now, accepted, digest);
    if found {
      SameIdsDistinct(entries, remaining);
      OneEntryAttempted(entries, remaining, id, now, accepted, digest(id));
      var saved := Save(store, remaining);
    }
  }

  lemma OneEntryAttempted(before: seq<Entry>, after: seq<Entry>, id: string, now: nat, accepted: bool, digest: byte)
    requires Distinct(Ids(before)) && Mapped(before, after, e => AfterAttempt(e, id, now, accepted, digest))
    requires exists k :: 0 <= k < |before| && before[k].id == id && IsPending(before[k])
    ensures OneAttempted(before, after, id, now, accepted, digest)
  {
    var k :| 0 <= k < |before| && before[k].id == id && IsPending(before[k]);
    MappedAtOne(before, after, e => AfterAttempt(e, id, now, accepted, digest), k);
    assert Attempted(before[k], id, now, accepted, digest, after[k]);
  }

  /** Exactly one entry of the list was attempted, in place. */
  ghost predicate OneAttempted(before: seq<Entry>, after: seq<Entry>, id: string, now: nat, accepted: bool, digest: byte) {
    && |after| == |before|
    && (exists k :: 0 <= k < |before| && Attempted(before[k], id, now, accepted, digest, after[k]) && after == before[k := after[k]])
  }

  /** An acknowledged entry is delivered and erased; another one has one more attempt and waits out its delay. */
  predicate Attempted(e: Entry, id: string, now: nat, accepted: bool, digest: byte, after: Entry) {
    && e.id == id && e.status == Pending && e.item.Some?
    && var attempts := if e.attempts < U32_MAX then e.attempts + 1 else U32_MAX;
       var due := now + RetryDelay(attempts, digest);
       after == if accepted then Entry(id, e.userId, e.recipient, e.slot, None, e.createdAt, e.attempts, 0, Delivered, None)
                else Entry(id, e.userId, e.recipient, e.slot, e.item, e.createdAt, attempts, if due <= U64_MAX then due else U64_MAX,
                           Pending, e.plaintext)
  }

  /** A pending entry moves to a new id and slot in one step; an id used by another entry is refused. */
  method ReaddressPending(store: Store, oldId: string, newId: string, slot: string, item: MailItem)
    returns (r: Result<bool, Error>)
    requires Consistent(store.data)
    modifies store
    ensures Consistent(store.data) && OthersKept(old(store.data), store.data)
    ensures r.Err? <==> newId != oldId && exists e :: e in old(List(store.data)) && e.id == newId
    ensures r.Err? ==> List(store.data) == old(List(store.data))
    ensures r.Ok? ==> Mapped(old(List(store.data)), List(store.data), e => Readdressed(e, oldId, newId, slot, item))
    ensures r.Ok? ==> (r.value <==> exists e :: e in old(List(store.data)) && e.id == oldId && IsPending(e))
    ensures r == Ok(false) ==> List(store.data) == old(List(store.data))
    ensures r == Ok(true) ==> OneMoved(old(List(store.data)), List(store.data), oldId, newId, slot, item)
  {
    var before := ListAll(store);
    var taken := Find(before, newId);
    if newId != oldId && taken < |before| {
      assert before[taken] in before;
      return Err(IdTaken);
    }
    var at := Find(before, oldId);
    if at < |before| {
      UniqueId(before, at);
    }
    if at == |before| || !IsPending(before[at]) {
      return Ok(false);
    }
    assert before[at] in before;
    var entries := before[at := before[at].(id := newId, slot := slot, item := Some(item), attempts := 0, sendAfter := 0)];
    assert Distinct(Ids(entries)) by {
      assert forall i :: 0 <= i < |before| ==> Ids(before)[i] == before[i].id && before[i] in before;
    }
    var saved := Save(store, entries);
    assert MovedTo(before[at], oldId, newId, slot, item, entries[at]);
    r := Ok(true);
  }

  /** Exactly one entry of the list was moved, in place. */
  ghost predicate OneMoved(before: seq<Entry>, after: seq<Entry>, oldId: string, newId: string, slot: string, item: MailItem) {
    && |after| == |before|
    && (exists k :: 0 <= k < |before| && MovedTo(before[k], oldId, newId, slot, item, after[k]) && after == before[k := after[k]])
  }

  /** The entry is the same delivery under the new id, for the new slot, holding the new ciphertext, due at once. */
  predicate MovedTo(e: Entry, oldId: string, newId: string, slot: string, item: MailItem, after: Entry) {
    && e.id == oldId && e.status == Pending
    && after == Entry(newId, e.userId, e.recipient, slot, Some(item), e.createdAt, 0, 0, Pending, e.plaintext)
  }
}
