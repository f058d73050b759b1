/**
 Sender-owned delivery between devices over a network that loses, duplicates, reorders and
 injects frames, with crashes at any point.
 The sender parks an item durably before it sends; the receiver commits the item's effects,
 its replies and an acceptance record in one transaction and only then acknowledges; the
 sender finalises an entry only on an acknowledgement it verified.
 A delivery id is the digest of the exact sealed item, so `Digest` is an injective
 constructor; an acknowledgement is `genuine` when its signature verifies.
 */
module Delivery {
  type Device = nat

  /** Pairwise items are sealed for one device; a group ciphertext is the same for every member. */
  datatype Item = Sealed(target: Device, body: nat) | Group(body: nat)

  datatype Id = Digest(of: Item) | Arbitrary(text: nat)

  datatype Frame =
    | Push(id: Id, item: Item)
    | Ack(id: Id, digest: Id, device: Device, genuine: bool)

  datatype Status = Pending | Delivered | Failed | Cancelled

  datatype Entry = Entry(slot: Device, item: Item, status: Status)

  datatype Attempt = Attempt(id: Id, item: Item, device: Device)

  datatype Inbound = Idle | Staged(item: Item) | Committed(item: Item)

  /** Durable: outbox, acceptance records, effects applied so far. Volatile: attempts in flight and the frame being received. */
  datatype Node = Node(
    outbox: map<Id, Entry>, accepted: map<Id, Id>, effects: seq<Id>,
    attempts: set<Attempt>, inbound: Inbound)

  datatype World = World(network: set<Frame>, nodes: map<Device, Node>)

  // ----- local operations -----

  /** An id in use is kept; parking it again for another slot is refused. */
  function Park(outbox: map<Id, Entry>, item: Item, slot: Device): map<Id, Entry> {
    if Digest(item) in outbox then outbox else outbox[Digest(item) := Entry(slot, item, Pending)]
  }

  function ParkAll(outbox: map<Id, Entry>, replies: seq<(Item, Device)>): map<Id, Entry>
    decreases |replies|
  {
    if replies == [] then outbox else ParkAll(Park(outbox, replies[0].0, replies[0].1), replies[1..])
  }

  /** `record_attempt` with an accepted outcome finalises a pending entry only; `mark_delivered` finalises any. */
  function Finalise(outbox: map<Id, Entry>, id: Id, onlyPending: bool): map<Id, Entry> {
    if id in outbox && (onlyPending ==> outbox[id].status == Pending)
    then outbox[id := outbox[id].(status := Delivered)]
    else outbox
  }

  predicate Verifies(ack: Frame, a: Attempt) {
    ack.Ack? && ack.genuine && ack.id == a.id && ack.device == a.device && ack.digest == Digest(a.item)
  }

  datatype Seen = New | Duplicate | Collision

  function SeenBefore(accepted: map<Id, Id>, id: Id, digest: Id): Seen {
    if id !in accepted then New else if accepted[id] == digest then Duplicate else Collision
  }

  /** The acceptance record never replaces an existing one. */
  function Record(accepted: map<Id, Id>, id: Id, digest: Id): map<Id, Id> {
    if id in accepted then accepted else accepted[id := digest]
  }

  // ----- steps -----

  datatype Event =
    | ParkItem(n: Device, item: Item, slot: Device)
    | Send(n: Device, id: Id)
    | TakeAck(n: Device, a: Attempt, ack: Frame, onlyPending: bool)
    | GiveUp(n: Device, a: Attempt)
    | Readdress(n: Device, id: Id, item: Item)
    | Close(n: Device, id: Id, status: Status)
    | Receive(n: Device, frame: Frame)
    | Process(n: Device, accept: bool, replies: seq<(Item, Device)>)
    | SendAck(n: Device)
    | Crash(n: Device)
    | Inject(frame: Frame)

  function Received(d: Device, node: Node, frame: Frame): (Node, set<Frame>) {
    if !frame.Push? || frame.id != Digest(frame.item) || !node.inbound.Idle? then (node, {})
    else
      match SeenBefore(node.accepted, frame.id, Digest(frame.item))
      case New => (node.(inbound := Staged(frame.item)), {})
      case Duplicate => (node, {Ack(frame.id, Digest(frame.item), d, true)})
      case Collision => (node, {})
  }

  function Processed(node: Node, accept: bool, replies: seq<(Item, Device)>): Node {
    if !node.inbound.Staged? then node
    else if !accept then node.(inbound := Idle)
    else
      var id := Digest(node.inbound.item);
      node.(outbox := ParkAll(node.outbox, replies),
            accepted := Record(node.accepted, id, id),
            effects := node.effects + [id],
            inbound := Committed(node.inbound.item))
  }

  /** The node's next state and the frames it emits. */
  function Local(d: Device, node: Node, e: Event): (Node, set<Frame>) {
    match e
    case ParkItem(_, item, slot) => (node.(outbox := Park(node.outbox, item, slot)), {})
    case Send(_, id) =>
      if id !in node.outbox then (node, {})
      else
        var entry := node.outbox[id];
        (node.(attempts := node.attempts + {Attempt(id, entry.item, entry.slot)}), {Push(id, entry.item)})
    case TakeAck(_, a, ack, onlyPending) =>
      if a !in node.attempts || !Verifies(ack, a) then (node, {})
      else (node.(outbox := Finalise(node.outbox, a.id, onlyPending), attempts := node.attempts - {a}), {})
    case GiveUp(_, a) => (node.(attempts := node.attempts - {a}), {})
    case Readdress(_, id, item) =>
      if id !in node.outbox || node.outbox[id].status != Pending || !node.outbox[id].item.Sealed?
         || !item.Sealed? || Digest(item) in node.outbox
      then (node, {})
      else (node.(outbox := (node.outbox - {id})[Digest(item) := Entry(item.target, item, Pending)]), {})
    case Close(_, id, status) =>
      if id !in node.outbox || status == Delivered then (node, {})
      else (node.(outbox := node.outbox[id := node.outbox[id].(status := status)]), {})
    case Receive(_, frame) => Received(d, node, frame)
    case Process(_, accept, replies) => (Processed(node, accept, replies), {})
    case SendAck(_) =>
      if !node.inbound.Committed? then (node, {})
      else
        var id := Digest(node.inbound.item);
        (node.(inbound := Idle), {Ack(id, id, d, true)})
    case Crash(_) => (node.(attempts := {}, inbound := Idle), {})
    case Inject(_) => (node, {})
  }

  /** A pairwise item is parked for the device it is sealed for. */
  predicate ForItsDevice(item: Item, slot: Device) {
    item.Sealed? ==> slot == item.target
  }

  /** Frames come from the network, nobody forges a genuine acknowledgement, and callers park what they sealed. */
  ghost predicate Allowed(w: World, e: Event) {
    match e
    case ParkItem(_, item, slot) => ForItsDevice(item, slot)
    case TakeAck(_, _, ack, _) => ack in w.network
    case Receive(_, frame) => frame in w.network
    case Process(_, _, replies) => forall i :: 0 <= i < |replies| ==> ForItsDevice(replies[i].0, replies[i].1)
    case Inject(frame) => !(frame.Ack? && frame.genuine)
    case _ => true
  }

  function Next(w: World, e: Event): World {
    if e.Inject? then w.(network := w.network + {e.frame})
    else if e.n !in w.nodes then w
    else
      var (node, out) := Local(e.n, w.nodes[e.n], e);
      World(w.network + out, w.nodes[e.n := node])
  }

  function Run(w: World, events: seq<Event>): World
    decreases |events|
  {
    if events == [] then w else Next(Run(w, events[..|events| - 1]), events[|events| - 1])
  }

  ghost predicate AllowedRun(w: World, events: seq<Event>) {
    forall i :: 0 <= i < |events| ==> Allowed(Run(w, events[..i]), events[i])
  }

  // ----- invariant -----

  predicate Accepted(w: World, d: Device, id: Id, digest: Id) {
    d in w.nodes && id in w.nodes[d].accepted && w.nodes[d].accepted[id] == digest
  }

  predicate OnceEach(ids: seq<Id>) {
    forall i, j :: 0 <= i < j < |ids| ==> ids[i] != ids[j]
  }

  ghost predicate EntriesOk(node: Node) {
    && (forall id :: id in node.outbox ==>
          id == Digest(node.outbox[id].item) && ForItsDevice(node.outbox[id].item, node.outbox[id].slot))
    && (forall a :: a in node.attempts ==>
          && a.id == Digest(a.item) && ForItsDevice(a.item, a.device)
          && (a.item.Group? ==> a.id in node.outbox && node.outbox[a.id].slot == a.device))
  }

  /** Effects, acceptance records and the frame in progress agree: recorded exactly once, exactly when applied. */
  ghost predicate InboxOk(node: Node) {
    && OnceEach(node.effects)
    && (forall id :: id in node.accepted <==> id in node.effects)
    && (forall id :: id in node.accepted ==> node.accepted[id] == id && id.Digest?)
    && (node.inbound.Staged? ==> Digest(node.inbound.item) !in node.accepted)
    && (node.inbound.Committed? ==> Digest(node.inbound.item) in node.accepted)
  }

  /** A genuine acknowledgement is backed by a durable record, and so is every delivered entry. */
  ghost predicate ProofsOk(w: World) {
    && (forall f :: f in w.network && f.Ack? && f.genuine ==> Accepted(w, f.device, f.id, f.digest))
    && (forall n, id :: n in w.nodes && id in w.nodes[n].outbox && w.nodes[n].outbox[id].status == Delivered ==>
          Accepted(w, w.nodes[n].outbox[id].slot, id, Digest(w.nodes[n].outbox[id].item)))
  }

  ghost predicate Inv(w: World) {
    && ProofsOk(w)
    && (forall n :: n in w.nodes ==> EntriesOk(w.nodes[n]) && InboxOk(w.nodes[n]))
  }

  // ----- preservation -----

  lemma {:induction false} ParkAllKeeps(outbox: map<Id, Entry>, replies: seq<(Item, Device)>)
    requires forall i :: 0 <= i < |replies| ==> ForItsDevice(replies[i].0, replies[i].1)
    ensures var after := ParkAll(outbox, replies);
      && (forall id :: id in outbox ==> id in after && after[id] == outbox[id])
      && (forall id :: id in after && id !in outbox ==>
            after[id].status == Pending && id == Digest(after[id].item) && ForItsDevice(after[id].item, after[id].slot))
    decreases |replies|
  {
    if replies != [] {
      ParkAllKeeps(Park(outbox, replies[0].0, replies[0].1), replies[1..]);
    }
  }

  /** Acceptance records and effects only grow, and they grow together by a staged item. */
  lemma InboxStep(d: Device, node: Node, e: Event)
    requires InboxOk(node)
    ensures var (node', out) := Local(d, node, e);
      && InboxOk(node')
      && (forall id :: id in node.accepted ==> id in node'.accepted && node'.accepted[id] == node.accepted[id])
      && (forall f :: f in out && f.Ack? ==> f.device == d && f.id in node'.accepted && f.digest == node'.accepted[f.id])
  {
    var (node', out) := Local(d, node, e);
    if e.Process? && node.inbound.Staged? && e.accept {
      var id := Digest(node.inbound.item);
      assert node'.effects == node.effects + [id];
      assert forall i :: 0 <= i < |node.effects| ==> node.effects[i] in node.effects;
    }
  }

  lemma EntriesStep(d: Device, node: Node, e: Event)
    requires EntriesOk(node)
    requires e.ParkItem? ==> ForItsDevice(e.item, e.slot)
    requires e.Process? ==> forall i :: 0 <= i < |e.replies| ==> ForItsDevice(e.replies[i].0, e.replies[i].1)
    ensures EntriesOk(Local(d, node, e).0)
  {
    if e.Process? {
      ParkAllKeeps(node.outbox, e.replies);
    }
  }

  /** An entry becomes delivered only by an acknowledgement from its own slot, of its own item. */
  lemma DeliveredStep(w: World, d: Device, node: Node, e: Event, id: Id)
    requires EntriesOk(node)
    requires e.TakeAck? && Verifies(e.ack, e.a) && e.a in node.attempts ==> Accepted(w, e.ack.device, e.ack.id, e.ack.digest)
    requires e.Process? ==> forall i :: 0 <= i < |e.replies| ==> ForItsDevice(e.replies[i].0, e.replies[i].1)
    requires id in Local(d, node, e).0.outbox && Local(d, node, e).0.outbox[id].status == Delivered
    ensures var entry := Local(d, node, e).0.outbox[id];
      || (id in node.outbox && node.outbox[id] == entry)
      || Accepted(w, entry.slot, id, Digest(entry.item))
  {
    if e.Process? {
      ParkAllKeeps(node.outbox, e.replies);
    }
  }

  lemma AcceptedGrows(w: World, e: Event)
    requires Inv(w)
    ensures forall d, id, digest :: Accepted(w, d, id, digest) ==> Accepted(Next(w, e), d, id, digest)
  {
    if !e.Inject? && e.n in w.nodes {
      InboxStep(e.n, w.nodes[e.n], e);
    }
  }

  lemma ProofsKept(w: World, e: Event)
    requires Inv(w) && Allowed(w, e)
    ensures ProofsOk(Next(w, e))
  {
    var w' := Next(w, e);
    AcceptedGrows(w, e);
    if !e.Inject? && e.n in w.nodes {
      var node := w.nodes[e.n];
      InboxStep(e.n, node, e);
      forall n, id | n in w'.nodes && id in w'.nodes[n].outbox && w'.nodes[n].outbox[id].status == Delivered
        ensures Accepted(w', w'.nodes[n].outbox[id].slot, id, Digest(w'.nodes[n].outbox[id].item))
      {
        if n == e.n {
          DeliveredStep(w, e.n, node, e, id);
        }
      }
    }
  }

  lemma NextKeeps(w: World, e: Event)
    requires Inv(w) && Allowed(w, e)
    ensures Inv(Next(w, e))
    ensures forall d, id, digest :: Accepted(w, d, id, digest) ==> Accepted(Next(w, e), d, id, digest)
  {
    AcceptedGrows(w, e);
    ProofsKept(w, e);
    if !e.Inject? && e.n in w.nodes {
      InboxStep(e.n, w.nodes[e.n], e);
      EntriesStep(e.n, w.nodes[e.n], e);
    }
  }

  // ----- main results -----

  /** A world at rest: nothing sent, nothing accepted, nothing delivered. */
  ghost predicate Initial(w: World) {
    && w.network == {}
    && forall n :: n in w.nodes ==> w.nodes[n] == Node(map[], map[], [], {}, Idle)
  }

  /**
   In every run: an entry marked delivered means its own device durably recorded that exact id
   and payload; no genuine acknowledgement precedes that record; and a device applies the
   effects of an id at most once, exactly when it records it.
   */
  lemma {:induction false} DeliveredMeansRecorded(w: World, events: seq<Event>)
    requires Initial(w) && AllowedRun(w, events)
    ensures Inv(Run(w, events))
    decreases |events|
  {
    if events != [] {
      var before := events[..|events| - 1];
      assert forall i :: 0 <= i < |before| ==> before[..i] == events[..i];
      DeliveredMeansRecorded(w, before);
      assert events[..|events| - 1] == before;
      NextKeeps(Run(w, before), events[|events| - 1]);
    }
  }

  /** Acceptance is never taken back, so a delivered entry stays backed whatever happens next. */
  lemma {:induction false} AcceptanceIsPermanent(w: World, events: seq<Event>, d: Device, id: Id, digest: Id)
    requires Inv(w) && AllowedRun(w, events) && Accepted(w, d, id, digest)
    ensures Inv(Run(w, events)) && Accepted(Run(w, events), d, id, digest)
    decreases |events|
  {
    if events != [] {
      var before := events[..|events| - 1];
      assert forall i :: 0 <= i < |before| ==> before[..i] == events[..i];
      AcceptanceIsPermanent(w, before, d, id, digest);
      NextKeeps(Run(w, before), events[|events| - 1]);
    }
  }

  /** With digests as ids the collision branch of the inbox is never taken in a reachable world. */
  lemma NoCollisions(w: World, n: Device, frame: Frame)
    requires Inv(w) && n in w.nodes && frame.Push? && frame.id == Digest(frame.item)
    ensures SeenBefore(w.nodes[n].accepted, frame.id, Digest(frame.item)) != Collision
  {
  }

  /**
   One sealed item has one delivery id, so a sender's outbox takes it for one device only:
   parking the same group ciphertext for a second member adds nothing.
   */
  lemma SecondRecipientIsRefused(outbox: map<Id, Entry>, item: Item, first: Device, second: Device)
    requires Digest(item) !in outbox
    ensures var after := Park(Park(outbox, item, first), item, second);
      && after == Park(outbox, item, first)
      && ((exists id :: id in after && after[id].item == item && after[id].slot == second && id == Digest(item)) <==> first == second)
  {
    var after := Park(Park(outbox, item, first), item, second);
    assert after[Digest(item)].slot == first;
  }

  /**
   A lost acknowledgement is harmless: sending a pending item again to a device that already
   recorded it brings the acknowledgement back, delivers the entry and applies no effect twice.
   */
  lemma RetryAfterLostAck(w: World, n: Device, d: Device, id: Id)
    requires Inv(w) && n in w.nodes && d in w.nodes && n != d
    requires id in w.nodes[n].outbox && w.nodes[n].outbox[id].status == Pending && w.nodes[n].outbox[id].slot == d
    requires id in w.nodes[d].accepted && w.nodes[d].inbound.Idle?
    ensures var entry := w.nodes[n].outbox[id];
      var a := Attempt(id, entry.item, d);
      var ack := Ack(id, Digest(entry.item), d, true);
      var sent := Next(w, Send(n, id));
      var answered := Next(sent, Receive(d, Push(id, entry.item)));
      var done := Next(answered, TakeAck(n, a, ack, true));
      && Allowed(sent, Receive(d, Push(id, entry.item))) && Allowed(answered, TakeAck(n, a, ack, true))
      && done.nodes[n].outbox[id].status == Delivered
      && done.nodes[d] == w.nodes[d]
  {
    var entry := w.nodes[n].outbox[id];
    assert id == Digest(entry.item) && w.nodes[d].accepted[id] == id;
  }

  // ----- what does get delivered -----

  /** Every reply is parked, unless its digest is in use already or an earlier reply took it. */
  lemma {:induction false} ParkAllParks(outbox: map<Id, Entry>, replies: seq<(Item, Device)>, j: nat)
    requires j < |replies| && Digest(replies[j].0) !in outbox
    requires forall i :: 0 <= i < j ==> replies[i].0 != replies[j].0
    ensures var after := ParkAll(outbox, replies);
      Digest(replies[j].0) in after && after[Digest(replies[j].0)] == Entry(replies[j].1, replies[j].0, Pending)
    decreases |replies|
  {
    var rest := Park(outbox, replies[0].0, replies[0].1);
    if j == 0 {
      ParkAllLeaves(rest, replies[1..], Digest(replies[0].0));
    } else {
      ParkAllParks(rest, replies[1..], j - 1);
    }
  }

  lemma {:induction false} ParkAllLeaves(outbox: map<Id, Entry>, replies: seq<(Item, Device)>, id: Id)
    requires id in outbox
    ensures var after := ParkAll(outbox, replies); id in after && after[id] == outbox[id]
    decreases |replies|
  {
    if replies != [] {
      ParkAllLeaves(Park(outbox, replies[0].0, replies[0].1), replies[1..], id);
    }
  }

  /** A first push to a device at rest is taken up, recorded with its one effect and its replies, and acknowledged. */
  lemma FirstPushIsAccepted(w: World, d: Device, item: Item, replies: seq<(Item, Device)>)
    requires d in w.nodes && w.nodes[d].inbound.Idle? && Digest(item) !in w.nodes[d].accepted
    ensures var id := Digest(item);
      var received := Next(w, Receive(d, Push(id, item)));
      var processed := Next(received, Process(d, true, replies));
      var answered := Next(processed, SendAck(d));
      && Received(d, w.nodes[d], Push(id, item)).0.inbound == Staged(item)
      && answered.nodes == w.nodes[d := w.nodes[d].(
           accepted := w.nodes[d].accepted[id := id],
           effects := w.nodes[d].effects + [id],
           outbox := ParkAll(w.nodes[d].outbox, replies))]
      && answered.network == w.network + {Ack(id, id, d, true)}
  {
    var id := Digest(item);
    var received := Next(w, Receive(d, Push(id, item)));
    var processed := Next(received, Process(d, true, replies));
    assert received.nodes[d] == w.nodes[d].(inbound := Staged(item));
    assert received.network == w.network && processed.network == w.network;
    assert processed.nodes[d].inbound == Committed(item);
  }

  /** An item the application refuses leaves no record, effect, reply or acknowledgement, and can be pushed again. */
  lemma RefusedPushLeavesNothing(w: World, d: Device, item: Item, replies: seq<(Item, Device)>)
    requires d in w.nodes && w.nodes[d].inbound.Idle? && Digest(item) !in w.nodes[d].accepted
    ensures var received := Next(w, Receive(d, Push(Digest(item), item)));
      var refused := Next(received, Process(d, false, replies));
      Next(refused, SendAck(d)) == w
  {
    var received := Next(w, Receive(d, Push(Digest(item), item)));
    assert received.nodes[d] == w.nodes[d].(inbound := Staged(item)) && received.network == w.network;
    var refused := Next(received, Process(d, false, replies));
    assert refused.nodes[d] == w.nodes[d] && refused.network == w.network;
    assert refused.nodes == w.nodes;
  }

  /**
   The whole exchange without mishap: a pending entry is sent, taken up, recorded and acknowledged,
   and ends delivered; its effect is applied once more than before and its replies are parked.
   */
  lemma {:induction false} ExchangeDelivers(w: World, n: Device, d: Device, id: Id, replies: seq<(Item, Device)>)
    requires Inv(w) && n in w.nodes && d in w.nodes
    requires id in w.nodes[n].outbox && w.nodes[n].outbox[id].status == Pending && w.nodes[n].outbox[id].slot == d
    requires id !in w.nodes[d].accepted && w.nodes[d].inbound.Idle?
    requires forall i :: 0 <= i < |replies| ==> ForItsDevice(replies[i].0, replies[i].1)
    ensures var item := w.nodes[n].outbox[id].item;
      var ack := Ack(id, id, d, true);
      var sent := Next(w, Send(n, id));
      var received := Next(sent, Receive(d, Push(id, item)));
      var processed := Next(received, Process(d, true, replies));
      var answered := Next(processed, SendAck(d));
      var done := Next(answered, TakeAck(n, Attempt(id, item, d), ack, true));
      && Allowed(w, Send(n, id)) && Allowed(sent, Receive(d, Push(id, item))) && Allowed(received, Process(d, true, replies))
      && Allowed(processed, SendAck(d)) && Allowed(answered, TakeAck(n, Attempt(id, item, d), ack, true))
      && n in done.nodes && d in done.nodes && id in done.nodes[n].outbox
      && done.nodes[n].outbox[id] == w.nodes[n].outbox[id].(status := Delivered)
      && done.nodes[d].accepted == w.nodes[d].accepted[id := id]
      && done.nodes[d].effects == w.nodes[d].effects + [id]
      && done.nodes[d].inbound.Idle?
      && (n != d ==> done.nodes[d].outbox == ParkAll(w.nodes[d].outbox, replies))
  {
    var item := w.nodes[n].outbox[id].item;
    assert id == Digest(item);
    var sent := Next(w, Send(n, id));
    assert sent.nodes == w.nodes[n := w.nodes[n].(attempts := w.nodes[n].attempts + {Attempt(id, item, d)})];
    assert sent.network == w.network + {Push(id, item)};
    assert sent.nodes[d].accepted == w.nodes[d].accepted && sent.nodes[d].outbox == w.nodes[d].outbox;
    FirstPushIsAccepted(sent, d, item, replies);
    ParkAllLeaves(w.nodes[n].outbox, replies, id);
  }

  /** A replaced device: the entry leaves its old id and is pending for the new device under the resealed item. */
  lemma ReaddressedEntryIsPending(w: World, n: Device, id: Id, item: Item)
    requires n in w.nodes && id in w.nodes[n].outbox && w.nodes[n].outbox[id].status == Pending
    requires w.nodes[n].outbox[id].item.Sealed? && item.Sealed? && Digest(item) !in w.nodes[n].outbox
    ensures var outbox := Next(w, Readdress(n, id, item)).nodes[n].outbox;
      && id !in outbox && Digest(item) in outbox && outbox[Digest(item)] == Entry(item.target, item, Pending)
      && forall other :: other in w.nodes[n].outbox && other != id ==> other in outbox && outbox[other] == w.nodes[n].outbox[other]
  {
  }

  /** An entry that is not pending, or whose new id is in use, is not moved. */
  lemma ReaddressRefused(w: World, n: Device, id: Id, item: Item)
    requires n in w.nodes && id in w.nodes[n].outbox
    requires w.nodes[n].outbox[id].status != Pending || Digest(item) in w.nodes[n].outbox
    ensures Next(w, Readdress(n, id, item)) == w
  {
    assert w.nodes[n := w.nodes[n]] == w.nodes;
  }

  /** An acknowledgement that comes after the entry was closed: an attempt's leaves it closed, an explicit mark delivers it. */
  lemma LateAckOnClosedEntry(w: World, n: Device, a: Attempt, ack: Frame, onlyPending: bool)
    requires n in w.nodes && a in w.nodes[n].attempts && Verifies(ack, a)
    requires a.id in w.nodes[n].outbox && w.nodes[n].outbox[a.id].status != Pending
    ensures var outbox := Next(w, TakeAck(n, a, ack, onlyPending)).nodes[n].outbox;
      outbox == if onlyPending then w.nodes[n].outbox
                else w.nodes[n].outbox[a.id := w.nodes[n].outbox[a.id].(status := Delivered)]
  {
  }

  /** A crash keeps everything durable and loses everything else. */
  lemma CrashKeepsDurable(w: World, n: Device)
    requires n in w.nodes
    ensures var node := w.nodes[n];
      Next(w, Crash(n)) == w.(nodes := w.nodes[n := Node(node.outbox, node.accepted, node.effects, {}, Idle)])
  {
  }

  /** So a crash before the commit leaves no trace of the push, and one after it leaves the record that answers the next push. */
  lemma CrashAroundCommit(w: World, d: Device, item: Item, replies: seq<(Item, Device)>)
    requires d in w.nodes && w.nodes[d].inbound.Idle? && Digest(item) !in w.nodes[d].accepted
    ensures var id := Digest(item);
      var received := Next(w, Receive(d, Push(id, item)));
      var committed := Next(received, Process(d, true, replies));
      var restarted := Next(committed, Crash(d));
      && Next(received, Crash(d)) == Next(w, Crash(d))
      && Next(restarted, Receive(d, Push(id, item))) == restarted.(network := restarted.network + {Ack(id, id, d, true)})
      && restarted.nodes[d].effects == w.nodes[d].effects + [id]
  {
    var id := Digest(item);
    var received := Next(w, Receive(d, Push(id, item)));
    CrashKeepsDurable(w, d);
    CrashKeepsDurable(received, d);
    var committed := Next(received, Process(d, true, replies));
    CrashKeepsDurable(committed, d);
    var restarted := Next(committed, Crash(d));
    assert received.nodes[d := Node(w.nodes[d].outbox, w.nodes[d].accepted, w.nodes[d].effects, {}, Idle)]
        == w.nodes[d := Node(w.nodes[d].outbox, w.nodes[d].accepted, w.nodes[d].effects, {}, Idle)];
    assert restarted.nodes[d].accepted == w.nodes[d].accepted[id := id];
    assert restarted.nodes[d := restarted.nodes[d]] == restarted.nodes;
  }
}
