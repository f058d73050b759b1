/**
 What the client does with the outbox: one flush of the shared outbox over a network, and
 cancellation by id prefix.
 */
module ClientOutbox {
  import opened Common
  import opened Storage
  import opened Outbox

  // ----- one flush of the shared outbox -----

  /** What a flush finds out about one recipient: no usable record, or the active device with the outcome of resealing and sending. */
  datatype Route =
    | BadUser
    | NoRecord
    | Unverified
    | Device(slot: string, resealed: Option<(string, MailItem)>, acked: bool)

  /** The flush marks an entry failed: no such user, or its device was replaced and it cannot be resealed. */
  predicate GivesUp(e: Entry, route: Route) {
    route.BadUser? || (route.Device? && route.slot != e.slot && (e.plaintext.None? || route.resealed.None?))
  }

  /** The current device acknowledged the entry as it was sent there. */
  predicate Acked(e: Entry, route: Route) {
    route.Device? && route.acked && !GivesUp(e, route)
  }

  /**
   A pending entry after an attempt without acknowledgement: on the same device as it was, on a
   replaced one under the resealed item, its id and the new slot; it waits out the delay of its attempts.
   */
  predicate Waiting(e: Entry, after: Entry, route: Route, now: nat, digest: string -> byte) {
    var moved := route.Device? && route.slot != e.slot;
    var attempts := if moved then 1 else if e.attempts < U32_MAX then e.attempts + 1 else U32_MAX;
    && (moved ==> route.resealed.Some?)
    && var id := if moved then route.resealed.value.0 else e.id;
       var due := now + RetryDelay(attempts, digest(id));
       after == Entry(id, e.userId, e.recipient, if moved then route.slot else e.slot,
                      if moved then Some(route.resealed.value.1) else e.item, e.createdAt, attempts,
                      if due <= U64_MAX then due else U64_MAX, Pending, e.plaintext)
  }

  /** What one attempt along its route may make of a pending entry; one stopped by an id collision is left as it was. */
  predicate MayBecome(e: Entry, after: Entry, route: Route, now: nat, digest: string -> byte) {
    && Bit(IsDelivered(after)) + Bit(IsFailed(after)) + Bit(IsPending(after)) == 1
    && (IsFailed(after) <==> GivesUp(e, route))
    && (IsDelivered(after) ==> Acked(e, route))
    && (IsPending(after) ==> after == e || Waiting(e, after, route, now, digest))
  }

  /** What an attempt that ran to its end makes of it. */
  predicate Becomes(e: Entry, after: Entry, route: Route, now: nat, digest: string -> byte) {
    && MayBecome(e, after, route, now, digest)
    && (IsDelivered(after) <==> Acked(e, route))
    && (IsPending(after) ==> Waiting(e, after, route, now, digest))
  }

  lemma AttemptBecomes(e: Entry, result: Entry, route: Route, now: nat, digest: string -> byte)
    requires !GivesUp(e, route) && (route.Device? ==> route.slot == e.slot)
    requires Attempted(e, e.id, now, route.Device? && route.acked, digest(e.id), result)
    ensures Becomes(e, result, route, now, digest)
  {
  }

  lemma RedirectBecomes(e: Entry, result: Entry, route: Route, now: nat, digest: string -> byte)
    requires !GivesUp(e, route) && route.Device? && route.slot != e.slot
    requires var (newId, item) := route.resealed.value;
      Attempted(Entry(newId, e.userId, e.recipient, route.slot, Some(item), e.createdAt, 0, 0, Pending, e.plaintext),
                newId, now, route.acked, digest(newId), result)
    ensures Becomes(e, result, route, now, digest)
  {
  }

  /** Deliver one pending entry along its route: exactly that entry changes, and only an acknowledgement delivers it. */
  method Process(store: Store, entry: Entry, route: Route, now: nat, digest: string -> byte, ghost k: nat)
    returns (r: Result<bool, Error>, ghost result: Entry)
    requires Consistent(store.data) && k < |List(store.data)| && List(store.data)[k] == entry && IsPending(entry)
    modifies store
    ensures Consistent(store.data) && OthersKept(old(store.data), store.data)
    ensures List(store.data) == old(List(store.data))[k := result]
    ensures IsDelivered(result) <==> r == Ok(true)
    ensures MayBecome(entry, result, route, now, digest)
    ensures r.Ok? ==> Becomes(entry, result, route, now, digest)
  {
    if route.BadUser? || (route.Device? && route.slot != entry.slot && (entry.plaintext.None? || route.resealed.None?)) {
      r, result := Fail(store, entry, k);
    } else if route.Device? && route.slot != entry.slot {
      var (newId, item) := route.resealed.value;
      r, result := Redirect(store, entry, route.slot, newId, item, route.acked, now, digest, k);
      if r.Ok? {
        RedirectBecomes(entry, result, route, now, digest);
      }
    } else {
      r, result := Try(store, entry, route.Device? && route.acked, now, digest, k);
      AttemptBecomes(entry, result, route, now, digest);
    }
  }

  lemma MovedThere(before: seq<Entry>, after: seq<Entry>, oldId: string, newId: string, slot: string, item: MailItem, k: nat)
    requires Distinct(Ids(before)) && OneMoved(before, after, oldId, newId, slot, item)
    requires k < |before| && before[k].id == oldId
    ensures |after| == |before| && MovedTo(before[k], oldId, newId, slot, item, after[k]) && after == before[k := after[k]]
  {
    UniqueId(before, k);
  }

  lemma AttemptedThere(before: seq<Entry>, after: seq<Entry>, id: string, now: nat, accepted: bool, digest: byte, k: nat)
    requires Distinct(Ids(before)) && OneAttempted(before, after, id, now, accepted, digest)
    requires k < |before| && before[k].id == id
    ensures |after| == |before| && Attempted(before[k], id, now, accepted, digest, after[k]) && after == before[k := after[k]]
  {
    UniqueId(before, k);
  }

  /** The recipient's device changed: the entry moves to the new one before it is sent there. */
  method Redirect(store: Store, entry: Entry, slot: string, newId: string, item: MailItem, acked: bool, now: nat,
                  digest: string -> byte, ghost k: nat)
    returns (r: Result<bool, Error>, ghost result: Entry)
    requires Consistent(store.data) && k < |List(store.data)| && List(store.data)[k] == entry && IsPending(entry)
    modifies store
    ensures Consistent(store.data) && OthersKept(old(store.data), store.data)
    ensures List(store.data) == old(List(store.data))[k := result]
    ensures r.Err? ==> result == entry
    ensures r.Ok? ==> r == Ok(acked)
    ensures r.Ok? ==> Attempted(Entry(newId, entry.userId, entry.recipient, slot, Some(item), entry.createdAt, 0, 0, Pending, entry.plaintext),
                                newId, now, acked, digest(newId), result)
  {
    ghost var data, before := store.data, List(store.data);
    result := entry;
    assert entry in before;
    var replaced := ReaddressPending(store, entry.id, newId, slot, item);
    if replaced.Err? {
      return Err(replaced.error), result;
    }
    ghost var middle, mid := store.data, List(store.data);
    MovedThere(before, mid, entry.id, newId, slot, item, k);
    var moved := entry.(id := newId, slot := slot, item := Some(item), attempts := 0, sendAfter := 0);
    r, result := Try(store, moved, acked, now, digest, k);
    OthersKeptTwice(data, middle, store.data);
  }

  method Fail(store: Store, entry: Entry, ghost k: nat) returns (r: Result<bool, Error>, ghost result: Entry)
    requires Consistent(store.data) && k < |List(store.data)| && List(store.data)[k] == entry && IsPending(entry)
    modifies store
    ensures Consistent(store.data) && OthersKept(old(store.data), store.data)
    ensures List(store.data) == old(List(store.data))[k := result]
    ensures r == Ok(false) && IsFailed(result)
  {
    ghost var before := List(store.data);
    var found := SetStatus(store, entry.id, Failed);
    MappedAtOne(before, List(store.data), e => WithStatus(e, entry.id, Failed), k);
    r, result := Ok(false), WithStatus(entry, entry.id, Failed);
  }

  method Try(store: Store, entry: Entry, acked: bool, now: nat, digest: string -> byte, ghost k: nat)
    returns (r: Result<bool, Error>, ghost result: Entry)
    requires Consistent(store.data) && k < |List(store.data)| && List(store.data)[k] == entry && IsPending(entry)
    modifies store
    ensures Consistent(store.data) && OthersKept(old(store.data), store.data)
    ensures List(store.data) == old(List(store.data))[k := result]
    ensures r == Ok(acked) && Attempted(entry, entry.id, now, acked, digest(entry.id), result)
  {
    ghost var before := List(store.data);
    var found := RecordAttempt(store, entry.id, now, acked, digest);
    assert entry in before;
    AttemptedThere(before, List(store.data), entry.id, now, acked, digest(entry.id), k);
    r, result := Ok(acked), List(store.data)[k];
  }

  lemma NothingLostUpdate(before: seq<Entry>, now: seq<Entry>, delivered: int, k: nat, e: Entry)
    requires NothingLost(before, now, delivered) && k < |now| && IsPending(now[k])
    requires Bit(IsDelivered(e)) + Bit(IsFailed(e)) + Bit(IsPending(e)) == 1
    ensures NothingLost(before, now[k := e], delivered + Bit(IsDelivered(e)))
  {
    CountUpdate(IsDelivered, now, k, e);
    CountUpdate(IsFailed, now, k, e);
    CountUpdate(IsPending, now, k, e);
  }

  /** Entries already tried are what their routes made of them; the others are untouched and in place. */
  ghost predicate Flushed(before: seq<Entry>, current: seq<Entry>, tried: seq<Entry>, network: Entry -> Route, now: nat,
                          digest: string -> byte, complete: bool)
  {
    && |current| == |before|
    && (forall p :: 0 <= p < |before| && before[p] !in tried ==> current[p] == before[p])
    && (forall p :: 0 <= p < |before| && before[p] in tried ==> MayBecome(before[p], current[p], network(before[p]), now, digest))
    && (complete ==> forall p :: 0 <= p < |before| && before[p] in tried ==>
          Becomes(before[p], current[p], network(before[p]), now, digest))
  }

  lemma FlushedOneMore(before: seq<Entry>, current: seq<Entry>, tried: seq<Entry>, network: Entry -> Route, now: nat,
                       digest: string -> byte, k: nat, result: Entry, ok: bool)
    requires Distinct(Ids(before)) && Flushed(before, current, tried, network, now, digest, true)
    requires k < |before| && before[k] !in tried && MayBecome(before[k], result, network(before[k]), now, digest)
    requires ok ==> Becomes(before[k], result, network(before[k]), now, digest)
    ensures Flushed(before, current[k := result], tried + [before[k]], network, now, digest, ok)
  {
    UniqueId(before, k);
  }

  lemma OthersKeptTwice(a: Data, b: Data, c: Data)
    requires OthersKept(a, b) && OthersKept(b, c)
    ensures OthersKept(a, c)
  {
  }

  method DueEntries(entries: seq<Entry>, now: nat) returns (due: seq<Entry>)
    requires Distinct(Ids(entries))
    ensures Distinct(Ids(due))
    ensures forall e :: e in due <==> e in entries && IsDue(e, now)
  {
    due := [];
    var i := 0;
    while i < |entries|
      invariant 0 <= i <= |entries|
      invariant Distinct(Ids(due))
      invariant forall e :: e in due <==> e in entries[..i] && IsDue(e, now)
    {
      if IsDue(entries[i], now) {
        forall j | 0 <= j < |due| ensures due[j].id != entries[i].id {
          assert due[j] in entries[..i];
          UniqueId(entries, i);
        }
        due := due + [entries[i]];
      }
      assert entries[..i + 1] == entries[..i] + [entries[i]];
      i := i + 1;
    }
    assert entries[..i] == entries;
  }

  lemma NextIsUntried(due: seq<Entry>, i: nat)
    requires i < |due| && Distinct(Ids(due))
    ensures due[i] !in due[..i] && due[..i + 1] == due[..i] + [due[i]]
  {
    assert forall j :: 0 <= j < |due| ==> Ids(due)[j] == due[j].id;
  }

  /**
   One flush, run alone, for any behaviour of the network and any device replacement: nothing
   pending is lost, whether it completes or stops on an id collision. Entries that are not due stay
   as they are; a due one is delivered only when its current device acknowledged it and failed
   exactly when it cannot be sent, and a completed flush delivers every acknowledged one.
   */
  method FlushShared(store: Store, now: nat, network: Entry -> Route, digest: string -> byte)
    returns (r: Result<(nat, nat), Error>, ghost tried: seq<Entry>)
    requires Consistent(store.data)
    modifies store
    ensures Consistent(store.data) && OthersKept(old(store.data), store.data)
    ensures r.Ok? ==> NothingLost(old(List(store.data)), List(store.data), r.value.0)
    ensures r.Ok? ==> r.value.1 == Count(IsPending, List(store.data))
    ensures exists delivered :: NothingLost(old(List(store.data)), List(store.data), delivered)
    ensures Flushed(old(List(store.data)), List(store.data), tried, network, now, digest, r.Ok?)
    ensures forall e :: e in tried ==> e in old(List(store.data)) && IsDue(e, now)
    ensures r.Ok? ==> forall e :: e in old(List(store.data)) && IsDue(e, now) ==> e in tried
  {
    ghost var before := List(store.data);
    var entries := ListAll(store);
    var due := DueEntries(entries, now);
    var delivered := 0;
    var i := 0;
    tried := [];
    while i < |due|
      invariant 0 <= i <= |due| && Consistent(store.data) && OthersKept(old(store.data), store.data)
      invariant NothingLost(before, List(store.data), delivered)
      invariant tried == due[..i] && Flushed(before, List(store.data), tried, network, now, digest, true)
    {
      ghost var data, current := store.data, List(store.data);
      NextIsUntried(due, i);
      assert due[i] in due;
      ghost var k :| 0 <= k < |before| && before[k] == due[i];
      var outcome;
      ghost var result;
      outcome, result := Process(store, due[i], network(due[i]), now, digest, k);
      OthersKeptTwice(old(store.data), data, store.data);
      NothingLostUpdate(before, current, delivered, k, result);
      FlushedOneMore(before, current, tried, network, now, digest, k, result, outcome.Ok?);
      tried := tried + [due[i]];
      if outcome.Err? {
        return Err(outcome.error), tried;
      }
      if outcome.value {
        delivered := delivered + 1;
      }
      i := i + 1;
    }
    assert due[..i] == due;
    var final := ListAll(store);
    var waiting := PendingCount(final);
    r := Ok((delivered, waiting));
  }

  method PendingCount(entries: seq<Entry>) returns (n: nat)
    ensures n == Count(IsPending, entries)
  {
    n := 0;
    var i := 0;
    while i < |entries|
      invariant 0 <= i <= |entries|
      invariant n == Count(IsPending, entries[..i])
    {
      CountAppend(IsPending, entries[..i], entries[i]);
      assert entries[..i + 1] == entries[..i] + [entries[i]];
      n := n + Bit(IsPending(entries[i]));
      i := i + 1;
    }
    assert entries[..i] == entries;
  }

  // ----- marks and cancellation -----

  function CancelledByClient(e: Entry): Entry {
    if IsPending(e) then e.(status := Cancelled, sendAfter := 0) else e
  }

  predicate Selected(e: Entry, id: string) {
    id == "all" || id <= e.id
  }

  function Cancelling(id: string): Entry -> Entry {
    e => if Selected(e, id) then CancelledByClient(e) else e
  }

  /** The prefix names exactly this entry. */
  ghost predicate OnlyMatch(entries: seq<Entry>, id: string, k: nat) {
    k < |entries| && id <= entries[k].id && forall j :: 0 <= j < |entries| && j != k ==> !(id <= entries[j].id)
  }

  /** The prefix names exactly one entry, and that one is pending. */
  ghost predicate Cancellable(entries: seq<Entry>, id: string) {
    exists k: nat :: OnlyMatch(entries, id, k) && IsPending(entries[k])
  }

  datatype Cancel = Nothing | All(removed: nat) | One(id: string, recipient: string)

  datatype CancelError = NoMatch | AlreadyFinal | Ambiguous

  method MatchingEntries(entries: seq<Entry>, id: string) returns (matches: seq<nat>)
    ensures forall k :: k in matches <==> 0 <= k < |entries| && id <= entries[k].id
    ensures forall i, j :: 0 <= i < j < |matches| ==> matches[i] < matches[j]
  {
    matches := [];
    for i := 0 to |entries|
      invariant forall k :: k in matches <==> 0 <= k < i && id <= entries[k].id
      invariant forall k, l :: 0 <= k < l < |matches| ==> matches[k] < matches[l]
      invariant forall l :: 0 <= l < |matches| ==> matches[l] < i
    {
      if id <= entries[i].id {
        matches := matches + [i];
      }
    }
  }

  method CancelAll(entries: seq<Entry>) returns (cancelled: seq<Entry>, removed: nat)
    ensures Mapped(entries, cancelled, CancelledByClient) && removed == Count(IsPending, entries)
  {
    cancelled, removed := entries, 0;
    for i := 0 to |entries|
      invariant |cancelled| == |entries| && removed == Count(IsPending, entries[..i])
      invariant forall j :: 0 <= j < i ==> cancelled[j] == CancelledByClient(entries[j])
      invariant forall j :: i <= j < |entries| ==> cancelled[j] == entries[j]
    {
      CountAppend(IsPending, entries[..i], entries[i]);
      assert entries[..i + 1] == entries[..i] + [entries[i]];
      if IsPending(cancelled[i]) {
        cancelled := cancelled[i := cancelled[i].(status := Cancelled, sendAfter := 0)];
        removed := removed + 1;
      }
    }
    assert entries[..|entries|] == entries;
  }

  /** `all` cancels every pending entry, a prefix the one entry it names; a prefix of none, of several or of a final one is refused. */
  method CancelOutbox(store: Store, id: string) returns (r: Result<Cancel, CancelError>)
    requires Consistent(store.data)
    modifies store
    ensures Consistent(store.data) && OthersKept(old(store.data), store.data)
    ensures r.Err? <==> id != "all" && old(List(store.data)) != [] && !Cancellable(old(List(store.data)), id)
    ensures r.Err? ==> List(store.data) == old(List(store.data))
    ensures r.Ok? ==> Mapped(old(List(store.data)), List(store.data), Cancelling(id))
    ensures r.Ok? && r.value.All? ==> r.value.removed == Count(IsPending, old(List(store.data)))
    ensures r.Ok? && r.value.One? ==>
              exists e :: e in old(List(store.data)) && IsPending(e) && id <= e.id && e.id == r.value.id && e.recipient == r.value.recipient
  {
    var entries := ListAll(store);
    if entries == [] { return Ok(Nothing); }
    if id == "all" {
      var cancelled, removed := CancelAll(entries);
      SameIdsDistinct(entries, cancelled);
      var saved := Save(store, cancelled);
      return Ok(All(removed));
    }
    r := CancelOne(store, entries, id);
  }

  method CancelOne(store: Store, entries: seq<Entry>, id: string) returns (r: Result<Cancel, CancelError>)
    requires Consistent(store.data) && entries == List(store.data) && Distinct(Ids(entries)) && id != "all"
    modifies store
    ensures Consistent(store.data) && OthersKept(old(store.data), store.data)
    ensures r.Ok? <==> Cancellable(entries, id)
    ensures r.Err? ==> List(store.data) == entries
    ensures r.Ok? ==> Mapped(entries, List(store.data), Cancelling(id)) && r.value.One?
    ensures r.Ok? ==> exists e :: e in entries && IsPending(e) && id <= e.id && e.id == r.value.id && e.recipient == r.value.recipient
  {
    var matches := MatchingEntries(entries, id);
    if |matches| == 0 { return Err(NoMatch); }
    if |matches| > 1 {
      assert matches[0] in matches && matches[1] in matches && matches[0] < matches[1];
      return Err(Ambiguous);
    }
    var k := matches[0];
    assert k in matches;
    assert OnlyMatch(entries, id, k) by {
      forall j | 0 <= j < |entries| && id <= entries[j].id ensures j == k { assert j in matches; }
    }
    if !IsPending(entries[k]) { return Err(AlreadyFinal); }
    var cancelled := entries[k := entries[k].(status := Cancelled, sendAfter := 0)];
    SameIdsDistinct(entries, cancelled);
    assert entries[k] in entries;
    var saved := Save(store, cancelled);
    r := Ok(One(entries[k].id, entries[k].recipient));
  }

  /**
   "Final means erased" survives a cancellation exactly when it cancels nothing: every entry it does
   cancel keeps its ciphertext and plaintext.
   */
  lemma CancelKeepsCiphertext(before: seq<Entry>, after: seq<Entry>, id: string)
    requires Mapped(before, after, Cancelling(id)) && forall e :: e in before ==> Tidy(e)
    ensures (forall e :: e in after ==> Tidy(e)) <==> !exists k :: 0 <= k < |before| && Selected(before[k], id) && IsPending(before[k])
    ensures forall k :: 0 <= k < |before| ==>
              after[k] == if (id == "all" || id <= before[k].id) && IsPending(before[k]) then before[k].(status := Cancelled, sendAfter := 0)
                          else before[k]
  {
    forall k | 0 <= k < |before|
      ensures before[k] in before && after[k] in after
      ensures Tidy(after[k]) <==> !(Selected(before[k], id) && IsPending(before[k]))
    {
      assert before[k] in before;
    }
  }

  lemma OnlyOneCancelled(before: seq<Entry>, after: seq<Entry>, prefix: string, k: nat)
    requires OnlyMatch(before, prefix, k) && prefix != "all" && Mapped(before, after, Cancelling(prefix))
    ensures after == before[k := CancelledByClient(before[k])]
  {
  }

  /** A run that leaves a final state: the client cancels an entry, and a later acknowledgement still marks it delivered. */
  method CancelThenMarkDelivered(store: Store, prefix: string, id: string, ghost k: nat)
    requires Consistent(store.data) && OnlyMatch(List(store.data), prefix, k) && prefix != "all"
    requires List(store.data)[k].id == id && IsPending(List(store.data)[k])
    modifies store
    ensures Consistent(store.data)
    ensures List(store.data) == old(List(store.data))[k := Finalised(old(List(store.data))[k], Delivered).(sendAfter := 0)]
  {
    ghost var start := List(store.data);
    assert Cancellable(start, prefix);
    var cancelled := CancelOutbox(store, prefix);
    ghost var mid := List(store.data);
    OnlyOneCancelled(start, mid, prefix, k);
    var delivered := SetStatus(store, id, Delivered);
    MappedAtOne(mid, List(store.data), e => WithStatus(e, id, Delivered), k);
  }
}
