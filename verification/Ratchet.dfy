/**
 Sender-key ratchet: a sender advances a chain of derived keys, a receiver follows
 it and banks the keys of skipped positions in a bounded list.
 The key derivation, the AEAD and the signature are arbitrary functions that meet
 `Sound`; chain positions are `u32`.
 */
module Ratchet {
  import opened Common

  const MAX_SKIP: nat := 1024

  type Key = nat

  datatype Suite = Suite(
    kdf: Key -> (Key, Key),
    seal: (Key, Bytes, Bytes) -> Bytes,
    open: (Key, Bytes, Bytes) -> Option<Bytes>,
    sign: (Key, nat, Bytes) -> Bytes,
    verify: (Key, nat, Bytes, Bytes) -> bool)

  datatype Error = BadSignature | DecryptFailed | TooManySkipped

  datatype GroupMessage = GroupMessage(iteration: nat, ciphertext: Bytes, signature: Bytes)

  /** What the primitives promise: the AEAD opens what it sealed and opens it to nothing else. */
  ghost predicate Sound(c: Suite) {
    && (forall k, p, ad :: c.open(k, c.seal(k, p, ad), ad) == Some(p))
    && (forall k, p, ad, ad', q :: c.open(k, c.seal(k, p, ad), ad') == Some(q) ==> ad' == ad && q == p)
  }

  /** `public` checks what `signing` signed. */
  ghost predicate KeyPair(c: Suite, signing: Key, public: Key) {
    forall n, ciphertext :: c.verify(public, n, ciphertext, c.sign(signing, n, ciphertext))
  }

  function Tagged(k: Key, p: Bytes, ad: Bytes): Bytes {
    Unary(k) + (Unary(|ad|) + (ad + p))
  }

  function Untagged(k: Key, ct: Bytes, ad: Bytes): Option<Bytes> {
    var head := Tagged(k, [], ad);
    if head <= ct then Some(ct[|head|..]) else None
  }

  lemma TagsDiffer(k: Key, p: Bytes, ad: Bytes, rest: Bytes, ad': Bytes)
    requires Tagged(k, p, ad) == Tagged(k, rest, ad')
    ensures ad == ad'
  {
    UnaryIsPrefixFree(k, k, Unary(|ad'|) + (ad' + rest), Unary(|ad|) + (ad + p));
    UnaryIsPrefixFree(|ad'|, |ad|, ad' + rest, ad + p);
    assert (ad' + rest)[..|ad'|] == ad' && (ad + p)[..|ad|] == ad;
  }

  lemma TagShows(k: Key, p: Bytes, ad: Bytes, ad': Bytes)
    ensures Untagged(k, Tagged(k, p, ad), ad') == if ad' == ad then Some(p) else None
  {
    var head, ct := Tagged(k, [], ad'), Tagged(k, p, ad);
    if head <= ct {
      var rest := ct[|head|..];
      assert ct == head + rest == Tagged(k, rest, ad');
      TagsDiffer(k, p, ad, rest, ad');
    }
    if ad' == ad {
      assert ct == head + p;
    }
  }

  /** The laws asked of a suite and a key pair are consistent. */
  lemma SoundSuiteExists(signing: Key)
    ensures exists c: Suite :: Sound(c) && KeyPair(c, signing, signing)
  {
    var c := Suite(
      (k: Key) => (k + 1, k),
      Tagged,
      Untagged,
      (k: Key, n: nat, ct: Bytes) => Tagged(k, ct, []),
      (k: Key, n: nat, ct: Bytes, signature: Bytes) => signature == Tagged(k, ct, []));
    forall k, p, ad, ad' ensures c.open(k, c.seal(k, p, ad), ad') == if ad' == ad then Some(p) else None {
      TagShows(k, p, ad, ad');
    }
    assert Sound(c) && KeyPair(c, signing, signing);
  }

  // ----- the chain -----

  function ChainAt(c: Suite, root: Key, n: nat): Key {
    if n == 0 then root else c.kdf(ChainAt(c, root, n - 1)).0
  }

  function KeyAt(c: Suite, root: Key, n: nat): Key {
    c.kdf(ChainAt(c, root, n)).1
  }

  // ----- the receiver, as a value -----

  datatype ReceiverState = ReceiverState(chain: Key, iteration: nat, skipped: seq<(nat, Key)>)

  function Bank(skipped: seq<(nat, Key)>, entry: (nat, Key)): seq<(nat, Key)> {
    (if |skipped| >= MAX_SKIP then skipped[|skipped| - (MAX_SKIP - 1)..] else skipped) + [entry]
  }

  function SkipOne(c: Suite, s: ReceiverState): ReceiverState {
    var (next, mk) := c.kdf(s.chain);
    ReceiverState(next, s.iteration + 1, Bank(s.skipped, (s.iteration, mk)))
  }

  function SkipTo(c: Suite, s: ReceiverState, target: nat): ReceiverState
    decreases target - s.iteration
  {
    if s.iteration >= target then s else SkipTo(c, SkipOne(c, s), target)
  }

  /** Index of the first banked key for `target`, or the length of the list. */
  function Position(skipped: seq<(nat, Key)>, target: nat): nat
    ensures Position(skipped, target) <= |skipped|
    ensures Position(skipped, target) < |skipped| ==> skipped[Position(skipped, target)].0 == target
    ensures forall j :: 0 <= j < Position(skipped, target) ==> skipped[j].0 != target
  {
    if skipped == [] || skipped[0].0 == target then 0 else 1 + Position(skipped[1..], target)
  }

  function TakeKey(c: Suite, s: ReceiverState, target: nat): (Result<Key, Error>, ReceiverState) {
    var pos := Position(s.skipped, target);
    if pos < |s.skipped| then
      (Ok(s.skipped[pos].1), s.(skipped := s.skipped[..pos] + s.skipped[pos + 1..]))
    else if target < s.iteration then
      (Err(DecryptFailed), s)
    else if target - s.iteration > MAX_SKIP then
      (Err(TooManySkipped), s)
    else
      var at := SkipTo(c, s, target);
      var (next, mk) := c.kdf(at.chain);
      (Ok(mk), ReceiverState(next, at.iteration + 1, at.skipped))
  }

  function Decrypted(c: Suite, public: Key, s: ReceiverState, msg: GroupMessage, ad: Bytes)
    : (Result<Bytes, Error>, ReceiverState)
  {
    if !c.verify(public, msg.iteration, msg.ciphertext, msg.signature) then
      (Err(BadSignature), s)
    else
      var (key, next) := TakeKey(c, s, msg.iteration);
      match key
      case Err(e) => (Err(e), s)
      case Ok(mk) =>
        match c.open(mk, msg.ciphertext, ad)
        case None => (Err(DecryptFailed), s)
        case Some(plaintext) => (Ok(plaintext), next)
  }

  // ----- the classes of the source -----

  class SenderKey {
    const suite: Suite
    const signing: Key
    var chainKey: Key
    var iteration: nat

    constructor (suite: Suite, signing: Key, chainKey: Key)
      ensures this.suite == suite && this.signing == signing
      ensures this.chainKey == chainKey && iteration == 0
    {
      this.suite, this.signing := suite, signing;
      this.chainKey, iteration := chainKey, 0;
    }

    /** Position `n` of the chain is sealed under the n-th derived key, and the chain moves by exactly one. */
    method Encrypt(ghost root: Key, plaintext: Bytes, ad: Bytes) returns (msg: GroupMessage)
      requires iteration < U32_MAX
      requires chainKey == ChainAt(suite, root, iteration)
      modifies this
      ensures iteration == old(iteration) + 1
      ensures chainKey == ChainAt(suite, root, iteration)
      ensures msg == MessageAt(suite, root, signing, old(iteration), plaintext, ad)
    {
      var (next, mk) := suite.kdf(chainKey);
      var position := iteration;
      chainKey := next;
      iteration := iteration + 1;
      var ciphertext := suite.seal(mk, plaintext, ad);
      var signature := suite.sign(signing, position, ciphertext);
      msg := GroupMessage(position, ciphertext, signature);
    }
  }

  function MessageAt(c: Suite, root: Key, signing: Key, n: nat, plaintext: Bytes, ad: Bytes): GroupMessage {
    var ciphertext := c.seal(KeyAt(c, root, n), plaintext, ad);
    GroupMessage(n, ciphertext, c.sign(signing, n, ciphertext))
  }

  class ReceiverKey {
    const suite: Suite
    const signingPublic: Key
    var chainKey: Key
    var iteration: nat
    var skipped: seq<(nat, Key)>

    ghost function State(): ReceiverState
      reads this
    {
      ReceiverState(chainKey, iteration, skipped)
    }

    constructor FromDistribution(suite: Suite, chainKey: Key, iteration: nat, signingPublic: Key)
      ensures this.suite == suite && this.signingPublic == signingPublic
      ensures State() == ReceiverState(chainKey, iteration, [])
    {
      this.suite, this.signingPublic := suite, signingPublic;
      this.chainKey, this.iteration, skipped := chainKey, iteration, [];
    }

    constructor Clone(other: ReceiverKey)
      ensures suite == other.suite && signingPublic == other.signingPublic
      ensures State() == other.State()
    {
      suite, signingPublic := other.suite, other.signingPublic;
      chainKey, iteration, skipped := other.chainKey, other.iteration, other.skipped;
    }

    method BankSkipped(position: nat, mk: Key)
      modifies this`skipped
      ensures skipped == Bank(old(skipped), (position, mk))
    {
      while |skipped| >= MAX_SKIP
        invariant |skipped| <= |old(skipped)|
        invariant |old(skipped)| >= MAX_SKIP ==> |skipped| >= MAX_SKIP - 1
        invariant |old(skipped)| < MAX_SKIP ==> skipped == old(skipped)
        invariant skipped == old(skipped)[|old(skipped)| - |skipped|..]
        decreases |skipped|
      {
        skipped := skipped[1..];
      }
      skipped := skipped + [(position, mk)];
    }

    method FindSkipped(target: nat) returns (pos: nat)
      ensures pos == Position(skipped, target)
    {
      pos := 0;
      while pos < |skipped| && skipped[pos].0 != target
        invariant 0 <= pos <= |skipped|
        invariant pos + Position(skipped[pos..], target) == Position(skipped, target)
      {
        assert skipped[pos..][1..] == skipped[pos + 1..];
        pos := pos + 1;
      }
    }

    method MessageKey(target: nat) returns (r: Result<Key, Error>)
      requires target < U32_MAX || iteration + MAX_SKIP < target
      modifies this
      ensures (r, State()) == TakeKey(suite, old(State()), target)
    {
      var pos := FindSkipped(target);
      if pos < |skipped| {
        r := Ok(skipped[pos].1);
        skipped := skipped[..pos] + skipped[pos + 1..];
        return;
      }
      if target < iteration {
        return Err(DecryptFailed);
      }
      if target - iteration > MAX_SKIP {
        return Err(TooManySkipped);
      }
      while iteration < target
        invariant old(iteration) <= iteration <= target
        invariant SkipTo(suite, State(), target) == SkipTo(suite, old(State()), target)
      {
        var (next, mk) := suite.kdf(chainKey);
        BankSkipped(iteration, mk);
        chainKey := next;
        iteration := iteration + 1;
      }
      var (next, mk) := suite.kdf(chainKey);
      chainKey := next;
      iteration := iteration + 1;
      r := Ok(mk);
    }

    method Decrypt(msg: GroupMessage, ad: Bytes) returns (r: Result<Bytes, Error>)
      requires msg.iteration < U32_MAX || iteration + MAX_SKIP < msg.iteration
      modifies this
      ensures (r, State()) == Decrypted(suite, signingPublic, old(State()), msg, ad)
    {
      if !suite.verify(signingPublic, msg.iteration, msg.ciphertext, msg.signature) {
        return Err(BadSignature);
      }
      var next := new ReceiverKey.Clone(this);
      var key := next.MessageKey(msg.iteration);
      if key.Err? {
        return Err(key.error);
      }
      var plain := suite.open(key.value, msg.ciphertext, ad);
      if plain.None? {
        return Err(DecryptFailed);
      }
      chainKey, iteration, skipped := next.chainKey, next.iteration, next.skipped;
      r := Ok(plain.value);
    }
  }

  // ----- what every reachable receiver keeps -----

  ghost predicate Banked(s: ReceiverState, p: nat) {
    exists j :: 0 <= j < |s.skipped| && s.skipped[j].0 == p
  }

  ghost predicate OnChain(c: Suite, root: Key, start: nat, s: ReceiverState) {
    && start <= s.iteration
    && s.chain == ChainAt(c, root, s.iteration)
    && |s.skipped| <= MAX_SKIP
    && (forall j :: 0 <= j < |s.skipped| ==>
          start <= s.skipped[j].0 < s.iteration && s.skipped[j].1 == KeyAt(c, root, s.skipped[j].0))
    && (forall j, k :: 0 <= j < k < |s.skipped| ==> s.skipped[j].0 < s.skipped[k].0)
  }

  /** The retention window: every unconsumed position of the last MAX_SKIP is still banked. */
  ghost predicate Retains(start: nat, s: ReceiverState, consumed: set<nat>) {
    && (forall p :: p in consumed ==> start <= p < s.iteration && !Banked(s, p))
    && (forall p: nat :: start <= p < s.iteration && s.iteration <= p + MAX_SKIP && p !in consumed ==> Banked(s, p))
  }

  ghost predicate ReceiverInv(c: Suite, root: Key, start: nat, s: ReceiverState, consumed: set<nat>) {
    OnChain(c, root, start, s) && Retains(start, s, consumed)
  }

  /** The k-th of a strictly increasing list of positions below `top` is at most `top - (length - k)`. */
  lemma {:induction false} IncreasingIsSpread(s: ReceiverState, k: nat)
    requires k < |s.skipped|
    requires forall j :: 0 <= j < |s.skipped| ==> s.skipped[j].0 < s.iteration
    requires forall j, k :: 0 <= j < k < |s.skipped| ==> s.skipped[j].0 < s.skipped[k].0
    ensures s.skipped[k].0 + (|s.skipped| - k) <= s.iteration
    decreases |s.skipped| - k
  {
    if k + 1 < |s.skipped| {
      IncreasingIsSpread(s, k + 1);
    }
  }

  /** Banking keeps the newest entries in order; what it drops is the oldest of MAX_SKIP or more. */
  lemma BankShifts(skipped: seq<(nat, Key)>, entry: (nat, Key), cut: nat)
    requires |skipped| <= MAX_SKIP
    requires cut == if |skipped| == MAX_SKIP then 1 else 0
    ensures |Bank(skipped, entry)| == |skipped| - cut + 1
    ensures Bank(skipped, entry)[|skipped| - cut] == entry
    ensures forall j :: 0 <= j < |skipped| - cut ==> Bank(skipped, entry)[j] == skipped[j + cut]
  {
  }

  lemma SkipOneStaysOnChain(c: Suite, root: Key, start: nat, s: ReceiverState)
    requires OnChain(c, root, start, s)
    ensures OnChain(c, root, start, SkipOne(c, s))
    ensures SkipOne(c, s).iteration == s.iteration + 1
  {
    BankShifts(s.skipped, (s.iteration, c.kdf(s.chain).1), if |s.skipped| == MAX_SKIP then 1 else 0);
  }

  lemma SkipOneKeeps(c: Suite, root: Key, start: nat, s: ReceiverState, consumed: set<nat>)
    requires ReceiverInv(c, root, start, s, consumed)
    ensures ReceiverInv(c, root, start, SkipOne(c, s), consumed)
    ensures SkipOne(c, s).iteration == s.iteration + 1
  {
    SkipOneStaysOnChain(c, root, start, s);
    var s' := SkipOne(c, s);
    var cut := if |s.skipped| == MAX_SKIP then 1 else 0;
    BankShifts(s.skipped, (s.iteration, c.kdf(s.chain).1), cut);
    forall p: nat | start <= p < s'.iteration && s'.iteration <= p + MAX_SKIP && p !in consumed
      ensures Banked(s', p)
    {
      if p == s.iteration {
        assert s'.skipped[|s.skipped| - cut].0 == p;
      } else {
        assert Banked(s, p);
        var j :| 0 <= j < |s.skipped| && s.skipped[j].0 == p;
        if j < cut {
          IncreasingIsSpread(s, 0);
          assert false;
        }
        assert s'.skipped[j - cut].0 == p;
      }
    }
    forall p | p in consumed
      ensures start <= p < s'.iteration && !Banked(s', p)
    {
      assert !Banked(s, p);
    }
  }

  lemma {:induction false} SkipToKeeps(c: Suite, root: Key, start: nat, s: ReceiverState, target: nat, consumed: set<nat>)
    requires ReceiverInv(c, root, start, s, consumed)
    requires s.iteration <= target
    ensures ReceiverInv(c, root, start, SkipTo(c, s, target), consumed)
    ensures SkipTo(c, s, target).iteration == target
    decreases target - s.iteration
  {
    if s.iteration < target {
      SkipOneKeeps(c, root, start, s, consumed);
      SkipToKeeps(c, root, start, SkipOne(c, s), target, consumed);
    }
  }

  /** A position is accepted exactly when banked or within the skip bound ahead; it then gets its own key and is spent. */
  lemma TakeKeyMeets(c: Suite, root: Key, start: nat, s: ReceiverState, target: nat, consumed: set<nat>)
    requires ReceiverInv(c, root, start, s, consumed)
    ensures var (r, s') := TakeKey(c, s, target);
      && (r.Ok? <==> Banked(s, target) || s.iteration <= target <= s.iteration + MAX_SKIP)
      && (r.Ok? ==>
            && r.value == KeyAt(c, root, target)
            && target !in consumed && start <= target
            && ReceiverInv(c, root, start, s', consumed + {target}))
      && (r.Err? ==> s' == s)
  {
    var pos := Position(s.skipped, target);
    var (r, s') := TakeKey(c, s, target);
    if pos < |s.skipped| {
      assert s.skipped[pos].0 == target;
      RemoveBanked(c, root, start, s, pos, consumed);
    } else if s.iteration <= target <= s.iteration + MAX_SKIP {
      SkipToKeeps(c, root, start, s, target, consumed);
      var at := SkipTo(c, s, target);
      assert s'.skipped == at.skipped;
      forall p: nat | start <= p < s'.iteration && s'.iteration <= p + MAX_SKIP && p !in consumed + {target}
        ensures Banked(s', p)
      {
        assert Banked(at, p);
      }
      forall p | p in consumed + {target}
        ensures start <= p < s'.iteration && !Banked(s', p)
      {
        assert p in consumed ==> !Banked(at, p);
      }
    }
  }

  lemma RemoveBanked(c: Suite, root: Key, start: nat, s: ReceiverState, pos: nat, consumed: set<nat>)
    requires ReceiverInv(c, root, start, s, consumed)
    requires pos < |s.skipped|
    ensures ReceiverInv(c, root, start, s.(skipped := s.skipped[..pos] + s.skipped[pos + 1..]),
                        consumed + {s.skipped[pos].0})
    ensures s.skipped[pos].0 !in consumed
  {
    var target := s.skipped[pos].0;
    assert Banked(s, target);
    var s' := s.(skipped := s.skipped[..pos] + s.skipped[pos + 1..]);
    assert forall j :: 0 <= j < |s'.skipped| ==> s'.skipped[j] == s.skipped[if j < pos then j else j + 1];
    forall p: nat | start <= p < s'.iteration && s'.iteration <= p + MAX_SKIP && p !in consumed + {target}
      ensures Banked(s', p)
    {
      var j :| 0 <= j < |s.skipped| && s.skipped[j].0 == p;
      assert s'.skipped[if j < pos then j else j - 1].0 == p;
    }
    forall p | p in consumed + {target}
      ensures start <= p < s'.iteration && !Banked(s', p)
    {
      if Banked(s', p) {
        var j :| 0 <= j < |s'.skipped| && s'.skipped[j].0 == p;
        assert s.skipped[if j < pos then j else j + 1].0 == p;
        assert Banked(s, p);
      }
    }
  }

  // ----- comparison with a receiver that never forgets a key -----

  /** The ideal receiver: every position from `start` on, each once. */
  predicate PerfectAccepts(start: nat, consumed: set<nat>, p: nat) {
    start <= p && p !in consumed
  }

  /** Inside the window of MAX_SKIP positions either side, eviction is unobservable; outside it the ratchet only refuses more. */
  lemma AgreesWithPerfectReceiver(c: Suite, root: Key, start: nat, s: ReceiverState, p: nat, consumed: set<nat>)
    requires ReceiverInv(c, root, start, s, consumed)
    ensures TakeKey(c, s, p).0.Ok? ==> PerfectAccepts(start, consumed, p)
    ensures s.iteration <= p + MAX_SKIP && p <= s.iteration + MAX_SKIP ==>
              (TakeKey(c, s, p).0.Ok? <==> PerfectAccepts(start, consumed, p))
    ensures p > s.iteration + MAX_SKIP ==> TakeKey(c, s, p).0 == Err(TooManySkipped)
  {
    TakeKeyMeets(c, root, start, s, p, consumed);
  }

  // ----- whole runs: any order of encryptions and deliveries -----

  datatype Event =
    | Encrypt(plaintext: Bytes, ad: Bytes)
    | Deliver(msg: GroupMessage, ad: Bytes)

  datatype Sent = Sent(plaintext: Bytes, ad: Bytes)

  datatype World = World(sent: seq<Sent>, receiver: ReceiverState, returned: seq<(nat, Bytes)>)

  datatype Setup = Setup(c: Suite, root: Key, signing: Key, public: Key, start: nat)

  function Consumed(returned: seq<(nat, Bytes)>): set<nat> {
    set i | 0 <= i < |returned| :: returned[i].0
  }

  function SentMessage(u: Setup, w: World, n: nat): GroupMessage
    requires n < |w.sent|
  {
    MessageAt(u.c, u.root, u.signing, n, w.sent[n].plaintext, w.sent[n].ad)
  }

  /** Signatures are unforgeable: whatever verifies was produced by the sender. Everything else may be delivered. */
  ghost predicate Unforged(u: Setup, w: World, msg: GroupMessage) {
    u.c.verify(u.public, msg.iteration, msg.ciphertext, msg.signature) ==>
      msg.iteration < |w.sent| && msg.ciphertext == SentMessage(u, w, msg.iteration).ciphertext
  }

  ghost predicate Allowed(u: Setup, w: World, e: Event) {
    match e
    case Encrypt(_, _) => |w.sent| < U32_MAX
    case Deliver(msg, _) => Unforged(u, w, msg)
  }

  function Next(u: Setup, w: World, e: Event): World {
    match e
    case Encrypt(p, ad) => w.(sent := w.sent + [Sent(p, ad)])
    case Deliver(msg, ad) =>
      var (r, s) := Decrypted(u.c, u.public, w.receiver, msg, ad);
      w.(receiver := s, returned := if r.Ok? then w.returned + [(msg.iteration, r.value)] else w.returned)
  }

  function Run(u: Setup, w: World, events: seq<Event>): World
    decreases |events|
  {
    if events == [] then w
    else Next(u, Run(u, w, events[..|events| - 1]), events[|events| - 1])
  }

  ghost predicate AllowedRun(u: Setup, w: World, events: seq<Event>) {
    forall i :: 0 <= i < |events| ==> Allowed(u, Run(u, w, events[..i]), events[i])
  }

  /** The receiver joins with the distribution the sender hands out at position `start`. */
  ghost predicate Joined(u: Setup, w: World) {
    && |w.sent| == u.start
    && w.receiver == ReceiverState(ChainAt(u.c, u.root, u.start), u.start, [])
    && w.returned == []
  }

  ghost predicate WorldInv(u: Setup, w: World) {
    && ReceiverInv(u.c, u.root, u.start, w.receiver, Consumed(w.returned))
    && (forall i :: 0 <= i < |w.returned| ==>
          w.returned[i].0 < |w.sent| && w.returned[i].1 == w.sent[w.returned[i].0].plaintext)
    && (forall i, j :: 0 <= i < j < |w.returned| ==> w.returned[i].0 != w.returned[j].0)
  }

  lemma ConsumedGrows(returned: seq<(nat, Bytes)>, entry: (nat, Bytes))
    ensures Consumed(returned + [entry]) == Consumed(returned) + {entry.0}
  {
    var more := returned + [entry];
    assert more[|returned|] == entry;
    forall p | p in Consumed(returned) ensures p in Consumed(more) {
      var i :| 0 <= i < |returned| && returned[i].0 == p;
      assert more[i].0 == p;
    }
  }

  /** An accepted message is the sender's own at a position not returned before. */
  lemma AcceptedIsOriginal(u: Setup, w: World, msg: GroupMessage, ad: Bytes)
    requires Sound(u.c) && WorldInv(u, w) && Unforged(u, w, msg)
    requires Decrypted(u.c, u.public, w.receiver, msg, ad).0.Ok?
    ensures var (r, s) := Decrypted(u.c, u.public, w.receiver, msg, ad);
      && msg.iteration < |w.sent| && r.value == w.sent[msg.iteration].plaintext
      && msg.iteration !in Consumed(w.returned)
      && ReceiverInv(u.c, u.root, u.start, s, Consumed(w.returned) + {msg.iteration})
  {
    TakeKeyMeets(u.c, u.root, u.start, w.receiver, msg.iteration, Consumed(w.returned));
    assert msg.ciphertext == SentMessage(u, w, msg.iteration).ciphertext;
  }

  lemma ReturnedKeeps(u: Setup, w: World, w': World, entry: (nat, Bytes))
    requires WorldInv(u, w) && w'.sent == w.sent && w'.returned == w.returned + [entry]
    requires entry.0 < |w.sent| && entry.1 == w.sent[entry.0].plaintext && entry.0 !in Consumed(w.returned)
    requires ReceiverInv(u.c, u.root, u.start, w'.receiver, Consumed(w.returned) + {entry.0})
    ensures WorldInv(u, w')
  {
    ConsumedGrows(w.returned, entry);
    assert forall i :: 0 <= i < |w.returned| ==> w.returned[i].0 in Consumed(w.returned);
  }

  lemma NextKeeps(u: Setup, w: World, e: Event)
    requires Sound(u.c)
    requires WorldInv(u, w) && Allowed(u, w, e)
    ensures WorldInv(u, Next(u, w, e))
  {
    if e.Deliver? && Decrypted(u.c, u.public, w.receiver, e.msg, e.ad).0.Ok? {
      AcceptedIsOriginal(u, w, e.msg, e.ad);
      var r := Decrypted(u.c, u.public, w.receiver, e.msg, e.ad).0;
      ReturnedKeeps(u, w, Next(u, w, e), (e.msg.iteration, r.value));
    }
  }

  /** Every position is returned at most once and with its original plaintext, in every run. */
  lemma {:induction false} EveryRunReturnsOriginals(u: Setup, w: World, events: seq<Event>)
    requires Sound(u.c)
    requires Joined(u, w) && AllowedRun(u, w, events)
    ensures WorldInv(u, Run(u, w, events))
    decreases |events|
  {
    if events == [] {
      assert Consumed(w.returned) == {};
    } else {
      var before := events[..|events| - 1];
      assert forall i :: 0 <= i < |before| ==> before[..i] == events[..i];
      EveryRunReturnsOriginals(u, w, before);
      NextKeeps(u, Run(u, w, before), events[|events| - 1]);
    }
  }

  /** A failed decryption, for whatever reason, changes nothing; a message that verifies fails only outside the window or under other associated data. */
  lemma DeliveryOutcome(u: Setup, w: World, msg: GroupMessage, ad: Bytes)
    requires Sound(u.c)
    requires WorldInv(u, w) && Unforged(u, w, msg)
    ensures var (r, s) := Decrypted(u.c, u.public, w.receiver, msg, ad);
      && (r.Err? ==> s == w.receiver)
      && (r.Ok? <==>
            && u.c.verify(u.public, msg.iteration, msg.ciphertext, msg.signature)
            && (Banked(w.receiver, msg.iteration)
                || w.receiver.iteration <= msg.iteration <= w.receiver.iteration + MAX_SKIP)
            && ad == w.sent[msg.iteration].ad)
  {
    TakeKeyMeets(u.c, u.root, u.start, w.receiver, msg.iteration, Consumed(w.returned));
    if u.c.verify(u.public, msg.iteration, msg.ciphertext, msg.signature) {
      var sent := w.sent[msg.iteration];
      assert msg.ciphertext == u.c.seal(KeyAt(u.c, u.root, msg.iteration), sent.plaintext, sent.ad);
      assert u.c.open(KeyAt(u.c, u.root, msg.iteration), msg.ciphertext, sent.ad) == Some(sent.plaintext);
    }
  }

  /** The sender's own message is accepted, and gives its plaintext, exactly inside the window and under its own associated data. */
  lemma OwnMessageOutcome(u: Setup, w: World, n: nat, ad: Bytes)
    requires Sound(u.c) && KeyPair(u.c, u.signing, u.public)
    requires WorldInv(u, w) && n < |w.sent|
    ensures var (r, _) := Decrypted(u.c, u.public, w.receiver, SentMessage(u, w, n), ad);
      && (r.Ok? <==>
            && (Banked(w.receiver, n) || w.receiver.iteration <= n <= w.receiver.iteration + MAX_SKIP)
            && ad == w.sent[n].ad)
      && (r.Ok? ==> r.value == w.sent[n].plaintext)
  {
    DeliveryOutcome(u, w, SentMessage(u, w, n), ad);
    if Decrypted(u.c, u.public, w.receiver, SentMessage(u, w, n), ad).0.Ok? {
      AcceptedIsOriginal(u, w, SentMessage(u, w, n), ad);
    }
  }
}
