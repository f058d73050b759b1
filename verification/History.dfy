/**
 Chat transcripts. A thread is stored as bounded segments plus a segment count, and reads
 as one flat list. The store is keyed by the structured `Key`; `KeysNeverCollide` and
 `TextStoreAgrees` justify that for the text keys actually written.
 */
module History {
  import opened Common
  import opened Storage
  import opened ExpiryKeys

  const SEGMENT: nat := 128

  type Index = n: nat | n <= U32_MAX

  datatype Id = Chat(peer: string) | Group(group: string)

  datatype Key = SegmentKey(id: Id, index: Index) | MetaKey(id: Id) | PeerIndex

  /** Who wrote a stored message: a side of a 1:1 chat or a named group member. */
  datatype Author = Me | Them | Member(handle: string)

  datatype Message = Message(id: string, author: Author, text: string, timestamp: nat, expiresAt: Option<nat>)

  /** A decoded value; `Corrupt` stands for bytes that do not decode. */
  datatype Value = Segment(messages: seq<Message>) | Meta(segments: Index) | Peers(names: seq<string>) | Corrupt

  datatype Failure = Undecodable

  type Data = map<Key, Value>
  type Store = KeyValueStore<Key, Value>

  // ----- keys as text -----

  function Prefix(id: Id): string {
    if id.Chat? then "hist:" + id.peer else "ghist:" + id.group
  }

  function Text(key: Key): string {
    match key
    case SegmentKey(id, index) => Prefix(id) + ":" + Digits(index, 12)
    case MetaKey(id) => Prefix(id) + ":meta"
    case PeerIndex => "history:peers"
  }

  lemma SameSuffix(a: string, b: string, s: string, t: string)
    requires a + s == b + t && |s| == |t|
    ensures a == b && s == t
  {
    assert (a + s)[..|a|] == a && (b + t)[..|b|] == b;
    assert (a + s)[|a|..] == s && (b + t)[|b|..] == t;
  }

  lemma PrefixesDiffer(a: Id, b: Id)
    requires Prefix(a) == Prefix(b)
    ensures a == b
  {
    assert Prefix(a)[0] == (if a.Chat? then 'h' else 'g') && Prefix(b)[0] == (if b.Chat? then 'h' else 'g');
    if a.Chat? {
      assert Prefix(a)[5..] == a.peer && Prefix(b)[5..] == b.peer;
    } else {
      assert Prefix(a)[6..] == a.group && Prefix(b)[6..] == b.group;
    }
  }

  lemma SegmentTexts(a: Id, i: Index, b: Id, j: Index)
    requires Text(SegmentKey(a, i)) == Text(SegmentKey(b, j))
    ensures a == b && i == j
  {
    SameSuffix(Prefix(a) + ":", Prefix(b) + ":", Digits(i, 12), Digits(j, 12));
    SameSuffix(Prefix(a), Prefix(b), ":", ":");
    PrefixesDiffer(a, b);
    assert Pow10(6) == 1_000_000 && Pow10(12) == 1_000_000 * Pow10(6);
    DigitsOrder(i, j, 12);
    CompareSelf(Digits(i, 12));
  }

  /** The last character and the fifth one tell the three kinds of key apart. */
  lemma KindShows(key: Key)
    ensures var t := Text(key);
      && |t| > 4
      && (key.SegmentKey? <==> '0' <= t[|t| - 1] <= '9')
      && (key.MetaKey? <==> t[|t| - 1] == 'a')
  {
    var t := Text(key);
    match key {
      case SegmentKey(id, index) => assert t[|t| - 1] == Digits(index, 12)[11];
      case MetaKey(id) => assert t[|t| - 1] == 'a';
      case PeerIndex => assert t[|t| - 1] == 's';
    }
  }

  /** Distinct keys have distinct texts, whatever characters (colons, digits) thread ids hold. */
  lemma KeysNeverCollide(k: Key, l: Key)
    ensures Text(k) == Text(l) <==> k == l
  {
    if Text(k) == Text(l) {
      KindShows(k);
      KindShows(l);
      if k.SegmentKey? {
        SegmentTexts(k.id, k.index, l.id, l.index);
      } else if k.MetaKey? {
        SameSuffix(Prefix(k.id), Prefix(l.id), ":meta", ":meta");
        PrefixesDiffer(k.id, l.id);
      }
    }
  }

  function AsText(m: Mutation<Key, Value>): Mutation<string, Value> {
    if m.Put? then Mutation.Put(Text(m.key), m.value) else Mutation.Delete(Text(m.key))
  }

  /** A store keyed by text answers like the one keyed by structure. */
  ghost predicate SameAnswers(text: map<string, Value>, data: Data) {
    forall key: Key :: Lookup(text, Text(key)) == Lookup(data, key)
  }

  lemma TextStoreAgrees(text: map<string, Value>, data: Data, m: Mutation<Key, Value>)
    requires SameAnswers(text, data)
    ensures SameAnswers(Applied(text, AsText(m)), Applied(data, m))
  {
    forall key ensures Lookup(Applied(text, AsText(m)), Text(key)) == Lookup(Applied(data, m), key) {
      KeysNeverCollide(key, m.key);
    }
  }

  // ----- the flat list -----

  function SegCount(data: Data, id: Id): Index {
    if MetaKey(id) in data && data[MetaKey(id)].Meta? then data[MetaKey(id)].segments else 0
  }

  function SegAt(data: Data, id: Id, i: Index): seq<Message> {
    if SegmentKey(id, i) in data && data[SegmentKey(id, i)].Segment? then data[SegmentKey(id, i)].messages else []
  }

  function Flat(data: Data, id: Id, n: Index): seq<Message> {
    if n == 0 then [] else Flat(data, id, n - 1) + SegAt(data, id, n - 1)
  }

  function Thread(data: Data, id: Id): seq<Message> {
    Flat(data, id, SegCount(data, id))
  }

  function PeerNames(data: Data): seq<string> {
    if PeerIndex in data && data[PeerIndex].Peers? then data[PeerIndex].names else []
  }

  // An absent key decodes to the empty value; a value of another kind does not decode.

  predicate MetaReads(data: Data, id: Id) {
    MetaKey(id) in data ==> data[MetaKey(id)].Meta?
  }

  predicate SegReads(data: Data, id: Id, i: Index) {
    SegmentKey(id, i) in data ==> data[SegmentKey(id, i)].Segment?
  }

  predicate NamesRead(data: Data) {
    PeerIndex in data ==> data[PeerIndex].Peers?
  }

  predicate Reads(data: Data, id: Id) {
    MetaReads(data, id) && forall i: Index :: i < SegCount(data, id) ==> SegReads(data, id, i)
  }

  predicate Bounded(data: Data, id: Id) {
    forall i: Index :: i < SegCount(data, id) ==> |SegAt(data, id, i)| <= SEGMENT
  }

  predicate Good(data: Data, id: Id) {
    Reads(data, id) && Bounded(data, id)
  }

  lemma {:induction false} FlatSame(before: Data, after: Data, id: Id, n: Index)
    requires forall i: Index :: i < n ==> SegAt(after, id, i) == SegAt(before, id, i)
    ensures Flat(after, id, n) == Flat(before, id, n)
  {
    if n > 0 { FlatSame(before, after, id, n - 1); }
  }

  predicate Belongs(key: Key, id: Id) {
    key != PeerIndex && key.id == id
  }

  /** Only the keys of this thread and the peer index may have changed. */
  ghost predicate OnlyThread(before: Data, after: Data, id: Id) {
    forall key: Key :: key != PeerIndex && !Belongs(key, id) ==> Lookup(after, key) == Lookup(before, key)
  }

  /** Work on one thread leaves every other thread, 1:1 or group, exactly as it was. */
  lemma OtherThreadsUntouched(before: Data, after: Data, id: Id, other: Id)
    requires OnlyThread(before, after, id) && other != id
    ensures Thread(after, other) == Thread(before, other)
    ensures Good(before, other) ==> Good(after, other)
  {
    assert Lookup(after, MetaKey(other)) == Lookup(before, MetaKey(other));
    assert forall i: Index :: Lookup(after, SegmentKey(other, i)) == Lookup(before, SegmentKey(other, i));
    assert forall i: Index :: SegReads(before, other, i) ==> SegReads(after, other, i);
    FlatSame(before, after, other, SegCount(before, other));
  }

  // ----- rewriting a thread segment by segment -----

  /** Each message is kept as `f` gives it, or removed. */
  function Rewritten(f: Message -> Option<Message>, ms: seq<Message>): seq<Message> {
    if ms == [] then []
    else
      match f(ms[0])
      case None => Rewritten(f, ms[1..])
      case Some(m) => [m] + Rewritten(f, ms[1..])
  }

  lemma {:induction false} RewrittenConcat(f: Message -> Option<Message>, a: seq<Message>, b: seq<Message>)
    ensures Rewritten(f, a + b) == Rewritten(f, a) + Rewritten(f, b)
  {
    if a == [] {
      assert a + b == b;
    } else {
      assert (a + b)[1..] == a[1..] + b;
      RewrittenConcat(f, a[1..], b);
    }
  }

  lemma {:induction false} RewrittenLength(f: Message -> Option<Message>, ms: seq<Message>)
    ensures |Rewritten(f, ms)| <= |ms|
  {
    if ms != [] { RewrittenLength(f, ms[1..]); }
  }

  lemma {:induction false} FlatRewritten(f: Message -> Option<Message>, before: Data, after: Data, id: Id, n: Index)
    requires forall i: Index :: i < n ==> SegAt(after, id, i) == Rewritten(f, SegAt(before, id, i))
    ensures Flat(after, id, n) == Rewritten(f, Flat(before, id, n))
  {
    if n > 0 {
      FlatRewritten(f, before, after, id, n - 1);
      RewrittenConcat(f, Flat(before, id, n - 1), SegAt(before, id, n - 1));
    }
  }

  function Filter(remove: Message -> bool): Message -> Option<Message> {
    m => if remove(m) then None else Some(m)
  }

  /** A filter that keeps the length keeps the list, so comparing lengths detects a change. */
  lemma {:induction false} FilterLength(remove: Message -> bool, ms: seq<Message>)
    ensures |Rewritten(Filter(remove), ms)| == |ms| ==> Rewritten(Filter(remove), ms) == ms
  {
    if ms != [] {
      FilterLength(remove, ms[1..]);
      RewrittenLength(Filter(remove), ms[1..]);
      assert ms == [ms[0]] + ms[1..];
    }
  }

  /** What filtering keeps: exactly the messages that are not removed. */
  lemma {:induction false} FilterKeeps(remove: Message -> bool, ms: seq<Message>, m: Message)
    ensures m in Rewritten(Filter(remove), ms) <==> m in ms && !remove(m)
  {
    if ms != [] {
      FilterKeeps(remove, ms[1..], m);
      assert ms == [ms[0]] + ms[1..];
    }
  }

  /** Reading `before` in order, exactly the messages to keep are met again in `after`. */
  predicate KeepsExactly(before: seq<Message>, after: seq<Message>, keep: Message -> bool)
    decreases |before|
  {
    if before == [] then after == []
    else if keep(before[0]) then after != [] && after[0] == before[0] && KeepsExactly(before[1..], after[1..], keep)
    else KeepsExactly(before[1..], after, keep)
  }

  lemma {:induction false} FilterKeepsExactly(remove: Message -> bool, keep: Message -> bool, ms: seq<Message>)
    requires forall m :: keep(m) <==> !remove(m)
    ensures KeepsExactly(ms, Rewritten(Filter(remove), ms), keep)
  {
    if ms != [] {
      FilterKeepsExactly(remove, keep, ms[1..]);
      assert ([ms[0]] + Rewritten(Filter(remove), ms[1..]))[1..] == Rewritten(Filter(remove), ms[1..]);
    }
  }

  lemma {:induction false} KeptMembers(keep: Message -> bool, before: seq<Message>, after: seq<Message>)
    requires KeepsExactly(before, after, keep)
    ensures forall m :: m in after <==> m in before && keep(m)
  {
    if before != [] {
      KeptMembers(keep, before[1..], if keep(before[0]) then after[1..] else after);
      assert before == [before[0]] + before[1..];
      if keep(before[0]) { assert after == [after[0]] + after[1..]; }
    }
  }

  function Live(now: nat): Message -> bool {
    (m: Message) => m.expiresAt.None? || now < m.expiresAt.value
  }

  function Spared(id: string, author: Author): Message -> bool {
    (m: Message) => m.id != id || m.author != author
  }

  predicate Expired(m: Message, now: nat) {
    m.expiresAt.Some? && now >= m.expiresAt.value
  }

  predicate Targets(m: Message, id: string, author: Author) {
    m.id == id && m.author == author
  }

  function Edited(m: Message, id: string, author: Author, text: string): Message {
    if Targets(m, id, author) then m.(text := text + " (edited)") else m
  }

  function Expiring(now: nat): Message -> bool {
    m => Expired(m, now)
  }

  function Removing(id: string, author: Author): Message -> bool {
    m => Targets(m, id, author)
  }

  function Editing(id: string, author: Author, text: string): Message -> Option<Message> {
    m => Some(Edited(m, id, author, text))
  }

  /** Editing keeps every message in its place and changes only the text of those targeted. */
  lemma {:induction false} EditingInPlace(id: string, author: Author, text: string, ms: seq<Message>, k: nat)
    ensures |Rewritten(Editing(id, author, text), ms)| == |ms|
    ensures k < |ms| ==> Rewritten(Editing(id, author, text), ms)[k] == Edited(ms[k], id, author, text)
  {
    if ms != [] { EditingInPlace(id, author, text, ms[1..], if k > 0 then k - 1 else 0); }
  }

  /** Messages of that id and author read as the new text, marked; every other message is as it was. */
  ghost predicate EditedExactly(before: seq<Message>, after: seq<Message>, id: string, author: Author, text: string) {
    |after| == |before| && forall k :: 0 <= k < |before| ==>
      after[k] == if before[k].id == id && before[k].author == author then before[k].(text := text + " (edited)") else before[k]
  }

  lemma ThreadEdited(id: string, author: Author, text: string, ms: seq<Message>)
    ensures EditedExactly(ms, Rewritten(Editing(id, author, text), ms), id, author, text)
  {
    EditingInPlace(id, author, text, ms, 0);
    forall k | 0 <= k < |ms| ensures Rewritten(Editing(id, author, text), ms)[k] == Edited(ms[k], id, author, text) {
      EditingInPlace(id, author, text, ms, k);
    }
  }

  /** Segments below `n` are rewritten; nothing else changed. */
  ghost predicate RewrittenBelow(f: Message -> Option<Message>, before: Data, after: Data, id: Id, n: Index) {
    && (forall i: Index :: i < n ==> SegReads(before, id, i) && SegReads(after, id, i))
    && (forall i: Index :: i < n ==> SegAt(after, id, i) == Rewritten(f, SegAt(before, id, i)))
    && (forall key: Key :: (key.SegmentKey? && key.id == id ==> key.index >= n) ==> Lookup(after, key) == Lookup(before, key))
  }

  lemma AllRewritten(f: Message -> Option<Message>, before: Data, after: Data, id: Id)
    requires MetaReads(before, id) && RewrittenBelow(f, before, after, id, SegCount(before, id))
    ensures Thread(after, id) == Rewritten(f, Thread(before, id))
    ensures Bounded(before, id) ==> Bounded(after, id)
    ensures Reads(before, id) && Reads(after, id) && OnlyThread(before, after, id)
    ensures PeerNames(after) == PeerNames(before) && (NamesRead(before) ==> NamesRead(after))
  {
    assert Lookup(after, MetaKey(id)) == Lookup(before, MetaKey(id));
    assert Lookup(after, PeerIndex) == Lookup(before, PeerIndex);
    FlatRewritten(f, before, after, id, SegCount(before, id));
    forall i: Index | i < SegCount(before, id) ensures |SegAt(after, id, i)| <= |SegAt(before, id, i)| {
      RewrittenLength(f, SegAt(before, id, i));
    }
  }

  // ----- the list-level meaning of each operation -----

  datatype Op =
    | Append(id: Id, message: Message)
    | LoadActive(id: Id, now: nat)
    | Delete(id: Id, messageId: string, author: Author)
    | Edit(id: Id, messageId: string, author: Author, text: string)
    | Clear(id: Id)

  predicate Known(ms: seq<Message>, messageId: string) {
    exists m :: m in ms && m.id == messageId
  }

  predicate Inserts(ms: seq<Message>, message: Message) {
    message.id == "" || !Known(ms, message.id)
  }

  function OnList(op: Op, ms: seq<Message>): seq<Message> {
    match op
    case Append(_, message) => if Inserts(ms, message) then ms + [message] else ms
    case LoadActive(_, now) => Rewritten(Filter(Expiring(now)), ms)
    case Delete(_, messageId, author) => Rewritten(Filter(Removing(messageId, author)), ms)
    case Edit(_, messageId, author, text) => Rewritten(Editing(messageId, author, text), ms)
    case Clear(_) => []
  }

  function Without(names: seq<string>, peer: string): seq<string> {
    if names == [] then []
    else if names[0] == peer then Without(names[1..], peer)
    else [names[0]] + Without(names[1..], peer)
  }

  function OnNames(op: Op, names: seq<string>): seq<string> {
    match op
    case Append(Chat(peer), _) => if peer in names then names else names + [peer]
    case Clear(Chat(peer)) => Without(names, peer)
    case _ => names
  }

  /** What every successful operation does to the stored segments. */
  ghost predicate Step(op: Op, before: Data, after: Data) {
    && Thread(after, op.id) == OnList(op, Thread(before, op.id))
    && PeerNames(after) == OnNames(op, PeerNames(before))
    && OnlyThread(before, after, op.id)
    && (Good(before, op.id) ==> Good(after, op.id))
  }

  // ----- operations -----

  method LoadSegments(store: Store, id: Id) returns (r: Result<seq<Message>, Failure>)
    ensures r == if Reads(store.data, id) then Ok(Thread(store.data, id)) else Err(Undecodable)
  {
    if !MetaReads(store.data, id) { return Err(Undecodable); }
    var count := SegCount(store.data, id);
    var all := [];
    for i := 0 to count
      invariant all == Flat(store.data, id, i)
      invariant forall j: Index :: j < i ==> SegReads(store.data, id, j)
    {
      if !SegReads(store.data, id, i) { return Err(Undecodable); }
      all := all + SegAt(store.data, id, i);
    }
    r := Ok(all);
  }

  predicate TailReads(data: Data, id: Id) {
    MetaReads(data, id) && (SegCount(data, id) > 0 ==> SegReads(data, id, SegCount(data, id) - 1))
  }

  /** Nothing was written but the tail segment and the count. */
  ghost predicate OnlyTail(before: Data, after: Data, id: Id) {
    forall key: Key :: key != MetaKey(id) && (key.SegmentKey? && key.id == id ==> key.index + 1 != SegCount(after, id))
      ==> Lookup(after, key) == Lookup(before, key)
  }

  ghost predicate AddedAtTail(before: Data, after: Data, id: Id, message: Message) {
    && Thread(after, id) == Thread(before, id) + [message]
    && SegCount(before, id) <= SegCount(after, id) <= SegCount(before, id) + 1
    && OnlyTail(before, after, id)
    && (Reads(before, id) ==> Reads(after, id))
    && (Bounded(before, id) ==> Bounded(after, id))
  }

  /** The message becomes the last of the list; at most the tail segment and the count are written. */
  method AppendSegmentMutations(store: Store, id: Id, message: Message)
    returns (r: Result<seq<Mutation<Key, Value>>, Failure>)
    requires SegCount(store.data, id) < U32_MAX
    ensures r.Ok? <==> TailReads(store.data, id)
    ensures r.Ok? ==> 1 <= |r.value| <= 2 && AddedAtTail(store.data, ApplyAll(store.data, r.value), id, message)
  {
    if !MetaReads(store.data, id) { return Err(Undecodable); }
    ghost var data := store.data;
    var count := SegCount(store.data, id);
    var target: Index, newCount: Index := 0, 1;
    if count > 0 {
      if !SegReads(store.data, id, count - 1) { return Err(Undecodable); }
      if |SegAt(store.data, id, count - 1)| >= SEGMENT {
        target, newCount := count, count + 1;
      } else {
        target, newCount := count - 1, count;
      }
    }
    var segment := if target < count then SegAt(store.data, id, target) else [];
    segment := segment + [message];
    var put: Mutation<Key, Value> := Mutation.Put(SegmentKey(id, target), Segment(segment));
    var meta: Mutation<Key, Value> := Mutation.Put(MetaKey(id), Meta(newCount));
    var mutations := if newCount != count then [put, meta] else [put];
    TailBatch(data, put, meta);
    assert TailWritten(data, ApplyAll(data, mutations), id, target, newCount, message);
    TailAppended(data, ApplyAll(data, mutations), id, target, newCount, message);
    r := Ok(mutations);
  }

  lemma TailBatch(data: Data, put: Mutation<Key, Value>, meta: Mutation<Key, Value>)
    ensures ApplyAll(data, [put]) == Applied(data, put)
    ensures ApplyAll(data, [put, meta]) == Applied(Applied(data, put), meta)
  {
    ApplyOneMore(data, [], put);
    ApplyOneMore(data, [put], meta);
    assert [] + [put] == [put] && [put] + [meta] == [put, meta];
  }

  /** The data with the message added to the target segment and, for a new segment, the count raised. */
  ghost predicate TailWritten(data: Data, after: Data, id: Id, target: Index, newCount: Index, message: Message) {
    && newCount == target + 1
    && (target == SegCount(data, id) || newCount == SegCount(data, id))
    && var kept := if target < SegCount(data, id) then SegAt(data, id, target) else [];
       var written := data[SegmentKey(id, target) := Segment(kept + [message])];
       after == if newCount != SegCount(data, id) then written[MetaKey(id) := Meta(newCount)] else written
  }

  lemma TailFrame(data: Data, after: Data, id: Id, target: Index, newCount: Index, message: Message)
    requires MetaReads(data, id) && TailWritten(data, after, id, target, newCount, message)
    ensures MetaReads(after, id) && SegCount(after, id) == newCount && OnlyTail(data, after, id)
    ensures SegReads(after, id, target)
    ensures SegAt(after, id, target) == (if target < SegCount(data, id) then SegAt(data, id, target) else []) + [message]
    ensures forall i: Index :: i < target ==> SegAt(after, id, i) == SegAt(data, id, i) && SegReads(after, id, i) == SegReads(data, id, i)
  {
    assert forall i: Index :: i < target ==> Lookup(after, SegmentKey(id, i)) == Lookup(data, SegmentKey(id, i));
  }

  lemma TailAppended(data: Data, after: Data, id: Id, target: Index, newCount: Index, message: Message)
    requires MetaReads(data, id) && TailWritten(data, after, id, target, newCount, message)
    requires target < SegCount(data, id) ==> |SegAt(data, id, target)| < SEGMENT
    ensures AddedAtTail(data, after, id, message)
  {
    TailFrame(data, after, id, target, newCount, message);
    FlatSame(data, after, id, target);
    var kept := if target < SegCount(data, id) then SegAt(data, id, target) else [];
    assert Thread(after, id) == Flat(data, id, target) + (kept + [message]);
    assert Thread(data, id) == Flat(data, id, target) + kept;
  }

  /** A duplicate non-empty id is not inserted; an undecodable value changes nothing. */
  method Append(store: Store, peer: string, message: Message) returns (r: Result<bool, Failure>)
    requires SegCount(store.data, Chat(peer)) < U32_MAX
    modifies store
    ensures r.Ok? <==>
            && NamesRead(old(store.data))
            && (if message.id == "" then TailReads(old(store.data), Chat(peer)) else Reads(old(store.data), Chat(peer)))
    ensures r.Err? ==> store.data == old(store.data)
    ensures r.Ok? ==> (r.value <==> message.id == "" || forall m :: m in old(Thread(store.data, Chat(peer))) ==> m.id != message.id)
    ensures r.Ok? ==> Thread(store.data, Chat(peer)) == old(Thread(store.data, Chat(peer))) + if r.value then [message] else []
    ensures r.Ok? ==> peer in PeerNames(store.data)
    ensures r.Ok? ==> Step(Op.Append(Chat(peer), message), old(store.data), store.data) && NamesRead(store.data)
    ensures forall key: Key :: key != PeerIndex && !Belongs(key, Chat(peer)) ==> Lookup(store.data, key) == Lookup(old(store.data), key)
    ensures forall i: Index :: i + 1 != SegCount(store.data, Chat(peer)) ==>
              Lookup(store.data, SegmentKey(Chat(peer), i)) == Lookup(old(store.data), SegmentKey(Chat(peer), i))
  {
    ghost var data := store.data;
    var inserted := true;
    if message.id != "" {
      var known := LoadSegments(store, Chat(peer));
      if known.Err? { return Err(Undecodable); }
      inserted := !Known(known.value, message.id);
    }
    if !NamesRead(store.data) { return Err(Undecodable); }
    var names := PeerNames(store.data);
    var mutations: seq<Mutation<Key, Value>> := [];
    if inserted {
      var tail := AppendSegmentMutations(store, Chat(peer), message);
      if tail.Err? { return Err(Undecodable); }
      mutations := tail.value;
    }
    ghost var written := ApplyAll(data, mutations);
    if peer !in names {
      var index: Mutation<Key, Value> := Mutation.Put(PeerIndex, Peers(names + [peer]));
      ApplyOneMore(data, mutations, index);
      mutations := mutations + [index];
    }
    store.ApplyBatch(mutations);
    AppendDone(data, written, store.data, peer, message);
    r := Ok(inserted);
  }

  lemma AppendDone(data: Data, written: Data, after: Data, peer: string, message: Message)
    requires NamesRead(data)
    requires Inserts(Thread(data, Chat(peer)), message) ==> AddedAtTail(data, written, Chat(peer), message)
    requires !Inserts(Thread(data, Chat(peer)), message) ==> written == data
    requires after == if peer in PeerNames(data) then written else written[PeerIndex := Peers(PeerNames(data) + [peer])]
    ensures Step(Op.Append(Chat(peer), message), data, after) && NamesRead(after)
    ensures forall i: Index :: i + 1 != SegCount(after, Chat(peer)) ==>
              Lookup(after, SegmentKey(Chat(peer), i)) == Lookup(data, SegmentKey(Chat(peer), i))
  {
    var id := Chat(peer);
    assert Lookup(written, PeerIndex) == Lookup(data, PeerIndex);
    assert Lookup(after, MetaKey(id)) == Lookup(written, MetaKey(id));
    assert forall i: Index :: Lookup(after, SegmentKey(id, i)) == Lookup(written, SegmentKey(id, i));
    assert forall i: Index :: SegReads(written, id, i) ==> SegReads(after, id, i);
    FlatSame(written, after, id, SegCount(written, id));
  }

  /** Groups keep no peer index, and a duplicate is refused before the tail is looked at. */
  method GroupAppend(store: Store, group: string, message: Message) returns (r: Result<bool, Failure>)
    requires SegCount(store.data, Group(group)) < U32_MAX
    modifies store
    ensures r.Ok? <==> if message.id == "" then TailReads(old(store.data), Group(group)) else Reads(old(store.data), Group(group))
    ensures r.Err? ==> store.data == old(store.data)
    ensures r.Ok? ==> (r.value <==> message.id == "" || forall m :: m in old(Thread(store.data, Group(group))) ==> m.id != message.id)
    ensures r.Ok? ==> Thread(store.data, Group(group)) == old(Thread(store.data, Group(group))) + if r.value then [message] else []
    ensures r.Ok? ==> Step(Op.Append(Group(group), message), old(store.data), store.data)
    ensures OnlyTail(old(store.data), store.data, Group(group))
  {
    if message.id != "" {
      var known := LoadSegments(store, Group(group));
      if known.Err? { return Err(Undecodable); }
      if Known(known.value, message.id) { return Ok(false); }
    }
    var tail := AppendSegmentMutations(store, Group(group), message);
    if tail.Err? { return Err(Undecodable); }
    ghost var data := store.data;
    store.ApplyBatch(tail.value);
    assert Lookup(store.data, PeerIndex) == Lookup(data, PeerIndex);
    r := Ok(true);
  }

  /** Reads the thread without its expired messages, which are dropped from the store on the way. */
  method LoadActiveSegments(store: Store, id: Id, now: nat) returns (r: Result<seq<Message>, Failure>)
    modifies store
    ensures r.Ok? <==> Reads(old(store.data), id)
    ensures r.Ok? ==> Step(LoadActive(id, now), old(store.data), store.data) && r.value == Thread(store.data, id)
    ensures r.Ok? ==> KeepsExactly(old(Thread(store.data, id)), r.value, Live(now))
    ensures r.Ok? ==> forall m :: m in r.value <==> m in old(Thread(store.data, id)) && (m.expiresAt.None? || now < m.expiresAt.value)
    ensures exists n: Index :: RewrittenBelow(Filter(Expiring(now)), old(store.data), store.data, id, n)
  {
    ghost var data := store.data;
    ghost var f := Filter(Expiring(now));
    assert RewrittenBelow(f, data, store.data, id, 0);
    if !MetaReads(store.data, id) { return Err(Undecodable); }
    var count := SegCount(store.data, id);
    var all := [];
    for i := 0 to count
      invariant RewrittenBelow(f, data, store.data, id, i)
      invariant all == Flat(store.data, id, i)
    {
      assert Lookup(store.data, SegmentKey(id, i)) == Lookup(data, SegmentKey(id, i));
      assert SegReads(store.data, id, i) == SegReads(data, id, i);
      if !SegReads(store.data, id, i) { return Err(Undecodable); }
      var segment := SegAt(store.data, id, i);
      var active := Rewritten(Filter(Expiring(now)), segment);
      FilterLength(Expiring(now), segment);
      ghost var was := store.data;
      if |active| != |segment| {
        store.Put(SegmentKey(id, i), Segment(active));
      }
      OneMore(f, data, was, store.data, id, i);
      OneMoreRead(f, data, was, store.data, id, i);
      all := all + active;
    }
    assert Lookup(store.data, MetaKey(id)) == Lookup(data, MetaKey(id));
    AllRewritten(f, data, store.data, id);
    FilterKeepsExactly(Expiring(now), Live(now), Thread(data, id));
    KeptMembers(Live(now), Thread(data, id), all);
    r := Ok(all);
  }

  /** Rewriting segment `i`, or leaving it when it is unchanged, extends the rewritten part. */
  lemma OneMore(f: Message -> Option<Message>, before: Data, was: Data, after: Data, id: Id, i: Index)
    requires i < U32_MAX && RewrittenBelow(f, before, was, id, i) && SegReads(was, id, i)
    requires var active := Rewritten(f, SegAt(was, id, i));
      after == was[SegmentKey(id, i) := Segment(active)] || (after == was && active == SegAt(was, id, i))
    ensures RewrittenBelow(f, before, after, id, i + 1)
  {
    assert Lookup(was, SegmentKey(id, i)) == Lookup(before, SegmentKey(id, i));
    assert SegReads(before, id, i) && SegAt(before, id, i) == SegAt(was, id, i);
    forall j: Index | j < i
      ensures SegReads(before, id, j) && SegReads(after, id, j)
      ensures SegAt(after, id, j) == Rewritten(f, SegAt(before, id, j))
    {
      assert SegReads(was, id, j);
      assert Lookup(after, SegmentKey(id, j)) == Lookup(was, SegmentKey(id, j));
    }
  }

  lemma OneMoreRead(f: Message -> Option<Message>, before: Data, was: Data, after: Data, id: Id, i: Index)
    requires i < U32_MAX && RewrittenBelow(f, before, was, id, i) && RewrittenBelow(f, before, after, id, i + 1)
    ensures Flat(after, id, i + 1) == Flat(was, id, i) + Rewritten(f, SegAt(was, id, i))
  {
    assert Lookup(was, SegmentKey(id, i)) == Lookup(before, SegmentKey(id, i));
    FlatSame(was, after, id, i);
  }

  /** Delete every message of this id and author. */
  method DeleteSegments(store: Store, id: Id, messageId: string, author: Author) returns (r: Result<(), Failure>)
    modifies store
    ensures r.Ok? <==> Reads(old(store.data), id)
    ensures r.Ok? ==> Step(Op.Delete(id, messageId, author), old(store.data), store.data)
    ensures r.Ok? ==> KeepsExactly(old(Thread(store.data, id)), Thread(store.data, id), Spared(messageId, author))
    ensures r.Ok? ==> forall m :: m in Thread(store.data, id) <==>
              m in old(Thread(store.data, id)) && (m.id != messageId || m.author != author)
    ensures exists n: Index :: RewrittenBelow(Filter(Removing(messageId, author)), old(store.data), store.data, id, n)
  {
    ghost var data := store.data;
    ghost var f := Filter(Removing(messageId, author));
    assert RewrittenBelow(f, data, store.data, id, 0);
    if !MetaReads(store.data, id) { return Err(Undecodable); }
    var count := SegCount(store.data, id);
    for i := 0 to count
      invariant RewrittenBelow(f, data, store.data, id, i)
    {
      assert Lookup(store.data, SegmentKey(id, i)) == Lookup(data, SegmentKey(id, i));
      assert SegReads(store.data, id, i) == SegReads(data, id, i);
      if !SegReads(store.data, id, i) { return Err(Undecodable); }
      var segment := SegAt(store.data, id, i);
      var kept := Rewritten(Filter(Removing(messageId, author)), segment);
      FilterLength(Removing(messageId, author), segment);
      ghost var was := store.data;
      if |kept| != |segment| {
        store.Put(SegmentKey(id, i), Segment(kept));
      }
      OneMore(f, data, was, store.data, id, i);
    }
    AllRewritten(f, data, store.data, id);
    FilterKeepsExactly(Removing(messageId, author), Spared(messageId, author), Thread(data, id));
    KeptMembers(Spared(messageId, author), Thread(data, id), Thread(store.data, id));
    r := Ok(());
  }

  method EditMessages(segment: seq<Message>, messageId: string, author: Author, text: string)
    returns (edited: seq<Message>, changed: bool)
    ensures edited == Rewritten(Editing(messageId, author, text), segment)
    ensures !changed ==> edited == segment
  {
    edited, changed := segment, false;
    for i := 0 to |segment|
      invariant |edited| == |segment| && edited[i..] == segment[i..]
      invariant forall k :: 0 <= k < i ==> edited[k] == Edited(segment[k], messageId, author, text)
      invariant !changed ==> edited == segment
    {
      if Targets(edited[i], messageId, author) {
        edited, changed := edited[i := edited[i].(text := text + " (edited)")], true;
      }
    }
    EditingInPlace(messageId, author, text, segment, 0);
    forall k | 0 <= k < |segment| ensures edited[k] == Rewritten(Editing(messageId, author, text), segment)[k] {
      EditingInPlace(messageId, author, text, segment, k);
    }
  }

  /** Only a message of the same author is edited, so nobody rewrites another's message. */
  method EditSegments(store: Store, id: Id, messageId: string, author: Author, text: string) returns (r: Result<(), Failure>)
    modifies store
    ensures r.Ok? <==> Reads(old(store.data), id)
    ensures r.Ok? ==> Step(Op.Edit(id, messageId, author, text), old(store.data), store.data)
    ensures r.Ok? ==> EditedExactly(old(Thread(store.data, id)), Thread(store.data, id), messageId, author, text)
    ensures exists n: Index :: RewrittenBelow(Editing(messageId, author, text), old(store.data), store.data, id, n)
  {
    ghost var data := store.data;
    ghost var f := Editing(messageId, author, text);
    assert RewrittenBelow(f, data, store.data, id, 0);
    if !MetaReads(store.data, id) { return Err(Undecodable); }
    var count := SegCount(store.data, id);
    for i := 0 to count
      invariant RewrittenBelow(f, data, store.data, id, i)
    {
      assert Lookup(store.data, SegmentKey(id, i)) == Lookup(data, SegmentKey(id, i));
      assert SegReads(store.data, id, i) == SegReads(data, id, i);
      if !SegReads(store.data, id, i) { return Err(Undecodable); }
      ghost var was := store.data;
      var segment := SegAt(store.data, id, i);
      var edited, changed := EditMessages(segment, messageId, author, text);
      if changed {
        store.Put(SegmentKey(id, i), Segment(edited));
      }
      OneMore(f, data, was, store.data, id, i);
    }
    AllRewritten(f, data, store.data, id);
    ThreadEdited(messageId, author, text, Thread(data, id));
    r := Ok(());
  }

  /** The thread's first `n` segments are gone and nothing else changed. */
  ghost predicate ClearedBelow(before: Data, after: Data, id: Id, n: Index) {
    forall key: Key :: Lookup(after, key) ==
      if key.SegmentKey? && key.id == id && key.index < n then None else Lookup(before, key)
  }

  lemma DropOne(data: Data, was: Data, id: Id, i: Index)
    requires i < U32_MAX && ClearedBelow(data, was, id, i)
    ensures ClearedBelow(data, Applied(was, Mutation.Delete(SegmentKey(id, i))), id, i + 1)
  {
    var after := Applied(was, Mutation.Delete(SegmentKey(id, i)));
    forall key: Key | key != SegmentKey(id, i) ensures Lookup(after, key) == Lookup(was, key) {
      assert key !in {SegmentKey(id, i)};
    }
  }

  /** Every segment of the thread, its count and its index entry go in one batch. */
  method Clear(store: Store, peer: string) returns (r: Result<(), Failure>)
    modifies store
    ensures r.Ok? <==> MetaReads(old(store.data), Chat(peer)) && NamesRead(old(store.data))
    ensures r.Err? ==> store.data == old(store.data)
    ensures r.Ok? ==> Step(Op.Clear(Chat(peer)), old(store.data), store.data) && NamesRead(store.data)
    ensures r.Ok? ==> MetaKey(Chat(peer)) !in store.data && Thread(store.data, Chat(peer)) == []
    ensures r.Ok? ==> forall n :: n in PeerNames(store.data) <==> n in old(PeerNames(store.data)) && n != peer
    ensures r.Ok? ==> forall i: Index :: i < SegCount(old(store.data), Chat(peer)) ==> SegmentKey(Chat(peer), i) !in store.data
  {
    var id := Chat(peer);
    if !MetaReads(store.data, id) || !NamesRead(store.data) { return Err(Undecodable); }
    ghost var data := store.data;
    var count := SegCount(store.data, id);
    var names := Without(PeerNames(store.data), peer);
    var mutations: seq<Mutation<Key, Value>> := [];
    for i := 0 to count
      invariant store.data == data
      invariant ClearedBelow(data, ApplyAll(data, mutations), id, i)
    {
      var drop: Mutation<Key, Value> := Mutation.Delete(SegmentKey(id, i));
      ApplyOneMore(data, mutations, drop);
      DropOne(data, ApplyAll(data, mutations), id, i);
      mutations := mutations + [drop];
    }
    ghost var emptied := ApplyAll(data, mutations);
    var dropMeta: Mutation<Key, Value> := Mutation.Delete(MetaKey(id));
    ApplyOneMore(data, mutations, dropMeta);
    mutations := mutations + [dropMeta];
    var index: Mutation<Key, Value> := Mutation.Put(PeerIndex, Peers(names));
    ApplyOneMore(data, mutations, index);
    mutations := mutations + [index];
    store.ApplyBatch(mutations);
    ClearDone(data, emptied, store.data, peer);
    WithoutMeans(PeerNames(data), peer);
    r := Ok(());
  }

  lemma ClearDone(data: Data, emptied: Data, after: Data, peer: string)
    requires ClearedBelow(data, emptied, Chat(peer), SegCount(data, Chat(peer)))
    requires after == Applied(Applied(emptied, Mutation.Delete(MetaKey(Chat(peer)))),
                              Mutation.Put(PeerIndex, Peers(Without(PeerNames(data), peer))))
    ensures Step(Op.Clear(Chat(peer)), data, after) && NamesRead(after) && MetaKey(Chat(peer)) !in after
    ensures forall i: Index :: i < SegCount(data, Chat(peer)) ==> SegmentKey(Chat(peer), i) !in after
  {
    assert SegCount(after, Chat(peer)) == 0;
    forall i: Index | i < SegCount(data, Chat(peer)) ensures SegmentKey(Chat(peer), i) !in after {
      assert Lookup(emptied, SegmentKey(Chat(peer), i)) == None;
    }
  }

  // ----- whole runs -----

  /** Non-empty ids occur once. */
  predicate UniqueIds(ms: seq<Message>) {
    forall i, j :: 0 <= i < j < |ms| && ms[i].id != "" ==> ms[i].id != ms[j].id
  }

  lemma {:induction false} RewritingAddsNoIds(f: Message -> Option<Message>, ms: seq<Message>, m: Message)
    requires forall m :: f(m).Some? ==> f(m).value.id == m.id
    requires m in Rewritten(f, ms)
    ensures Known(ms, m.id)
  {
    if m in Rewritten(f, ms[1..]) {
      RewritingAddsNoIds(f, ms[1..], m);
      var m' :| m' in ms[1..] && m'.id == m.id;
      assert m' in ms;
    } else {
      assert ms[0] in ms && m.id == ms[0].id;
    }
  }

  /** Removing or editing messages keeps non-empty ids unique. */
  lemma {:induction false} RewritingKeepsIds(f: Message -> Option<Message>, ms: seq<Message>)
    requires UniqueIds(ms)
    requires forall m :: f(m).Some? ==> f(m).value.id == m.id
    ensures UniqueIds(Rewritten(f, ms))
  {
    if ms != [] {
      RewritingKeepsIds(f, ms[1..]);
      if f(ms[0]).Some? && ms[0].id != "" {
        forall m | m in Rewritten(f, ms[1..]) ensures m.id != ms[0].id {
          RewritingAddsNoIds(f, ms[1..], m);
          var m' :| m' in ms[1..] && m'.id == m.id;
          var k :| 0 <= k < |ms[1..]| && ms[1..][k] == m';
          assert ms[k + 1] == m';
        }
      }
    }
  }

  lemma OperationsKeepIds(op: Op, ms: seq<Message>)
    requires UniqueIds(ms)
    ensures UniqueIds(OnList(op, ms))
  {
    match op {
      case Append(_, _) => assert forall i :: 0 <= i < |ms| ==> ms[i] in ms;
      case LoadActive(_, now) => RewritingKeepsIds(Filter(Expiring(now)), ms);
      case Delete(_, messageId, author) => RewritingKeepsIds(Filter(Removing(messageId, author)), ms);
      case Edit(_, messageId, author, text) => RewritingKeepsIds(Editing(messageId, author, text), ms);
      case Clear(_) =>
    }
  }

  lemma {:induction false} WithoutMeans(names: seq<string>, peer: string)
    ensures forall n :: n in Without(names, peer) <==> n in names && n != peer
    ensures Distinct(names) ==> Distinct(Without(names, peer))
  {
    if names != [] {
      WithoutMeans(names[1..], peer);
      assert names == [names[0]] + names[1..];
      if Distinct(names) {
        assert forall i :: 0 <= i < |names[1..]| ==> names[1..][i] == names[i + 1];
        assert names[0] !in Without(names[1..], peer);
      }
    }
  }

  predicate Distinct(names: seq<string>) {
    forall i, j :: 0 <= i < j < |names| ==> names[i] != names[j]
  }

  /** The peer index names each peer once and misses none that has messages. */
  ghost predicate Indexed(data: Data) {
    && Distinct(PeerNames(data))
    && forall peer :: Thread(data, Chat(peer)) != [] ==> peer in PeerNames(data)
  }

  ghost predicate Sound(data: Data) {
    Indexed(data) && forall id :: Good(data, id) && UniqueIds(Thread(data, id))
  }

  lemma EmptyIsSound()
    ensures Sound(map[])
  {
  }

  /** One operation acts on its own thread as on a list, on no other thread, and keeps the store sound. */
  lemma StepKeeps(op: Op, before: Data, after: Data)
    requires Step(op, before, after) && Sound(before)
    requires op.Clear? ==> op.id.Chat?
    ensures Sound(after)
    ensures forall id :: Thread(after, id) == if id == op.id then OnList(op, Thread(before, id)) else Thread(before, id)
  {
    forall id
      ensures Thread(after, id) == if id == op.id then OnList(op, Thread(before, id)) else Thread(before, id)
      ensures Good(after, id) && UniqueIds(Thread(after, id))
    {
      if id == op.id { OperationsKeepIds(op, Thread(before, id)); }
      else { OtherThreadsUntouched(before, after, op.id, id); }
    }
    if op.id.Chat? { WithoutMeans(PeerNames(before), op.id.peer); }
    NamesKept(op, before, after);
  }

  lemma NamesKept(op: Op, before: Data, after: Data)
    requires Step(op, before, after) && Indexed(before)
    requires forall id :: id != op.id ==> Thread(after, id) == Thread(before, id)
    requires op.id.Chat? ==> forall n :: n in Without(PeerNames(before), op.id.peer) <==> n in PeerNames(before) && n != op.id.peer
    requires op.id.Chat? ==> Distinct(Without(PeerNames(before), op.id.peer))
    ensures Indexed(after)
  {
    assert Distinct(PeerNames(after));
    forall peer | Thread(after, Chat(peer)) != [] ensures peer in PeerNames(after) {
      if Chat(peer) != op.id {
        assert Thread(before, Chat(peer)) != [];
        assert peer in PeerNames(before);
      } else if !op.Append? {
        assert Thread(before, Chat(peer)) != [];
      }
    }
  }

  /** The list a reader of the operations alone would expect. */
  function ListAfter(ops: seq<Op>, id: Id, start: seq<Message>): seq<Message>
    decreases |ops|
  {
    if ops == [] then start
    else
      var last := ops[|ops| - 1];
      var ms := ListAfter(ops[..|ops| - 1], id, start);
      if last.id == id then OnList(last, ms) else ms
  }

  ghost predicate Run(ops: seq<Op>, states: seq<Data>) {
    && |states| == |ops| + 1
    && (forall k: nat :: k < |ops| ==> Step(ops[k], states[k], states[k + 1]))
    && (forall k: nat :: k < |ops| && ops[k].Clear? ==> ops[k].id.Chat?)
  }

  /** Any mix of operations on any threads leaves each thread as the flat list of its own operations. */
  lemma {:induction false} EveryRunIsAFlatList(ops: seq<Op>, states: seq<Data>, id: Id)
    requires Run(ops, states) && Sound(states[0])
    ensures Sound(states[|ops|])
    ensures Thread(states[|ops|], id) == ListAfter(ops, id, Thread(states[0], id))
    decreases |ops|
  {
    if ops != [] {
      var n := |ops| - 1;
      assert Run(ops[..n], states[..|ops|]);
      EveryRunIsAFlatList(ops[..n], states[..|ops|], id);
      StepKeeps(ops[n], states[n], states[n + 1]);
    }
  }
}
