/**
 A member's view of a group: its own sender key and one receiver key per other member,
 decrypted in place, and the snapshot it is persisted as.
 */
module Groups {
  import opened Common
  import opened Ratchet

  type MemberId = Bytes

  datatype Failure = Malformed | Refused(error: Error)

  datatype Distribution = Distribution(iteration: nat, chainKey: Key, signingPublic: Key)

  /** A receiver key as a value. */
  datatype Member = Member(public: Key, state: ReceiverState)

  datatype View = View(ownId: MemberId, ownSigning: Key, ownChain: Key, ownIteration: nat, members: map<MemberId, Member>)

  datatype MemberState = MemberState(id: MemberId, chain: Key, iteration: nat, signingPublic: Key, skipped: seq<(nat, Key)>)

  datatype GroupState = GroupState(
    ownId: MemberId, ownChain: Key, ownIteration: nat, ownSigning: Key, members: seq<MemberState>)

  // ----- what a snapshot restores to -----

  function MemberOf(m: MemberState): Member {
    Member(m.signingPublic, ReceiverState(m.chain, m.iteration, m.skipped))
  }

  /** Later entries of the same id replace earlier ones; a single bad signing key refuses the snapshot. */
  function RestoredMembers(isKey: Key -> bool, ms: seq<MemberState>): Result<map<MemberId, Member>, Failure>
    decreases |ms|
  {
    if ms == [] then Ok(map[])
    else
      var last := ms[|ms| - 1];
      match RestoredMembers(isKey, ms[..|ms| - 1])
      case Err(e) => Err(e)
      case Ok(members) => if isKey(last.signingPublic) then Ok(members[last.id := MemberOf(last)]) else Err(Malformed)
  }

  function Restored(isKey: Key -> bool, s: GroupState): Result<View, Failure> {
    match RestoredMembers(isKey, s.members)
    case Err(e) => Err(e)
    case Ok(members) => Ok(View(s.ownId, s.ownSigning, s.ownChain, s.ownIteration, members))
  }

  /** The snapshot lists each member of the view once, and nobody else, in some order. */
  ghost predicate Snapshots(s: GroupState, v: View) {
    && s.ownId == v.ownId && s.ownSigning == v.ownSigning && s.ownChain == v.ownChain && s.ownIteration == v.ownIteration
    && Lists(s.members, v.members)
  }

  ghost predicate Lists(ms: seq<MemberState>, members: map<MemberId, Member>) {
    && (forall i :: 0 <= i < |ms| ==> ms[i].id in members && members[ms[i].id] == MemberOf(ms[i]))
    && (forall i, j :: 0 <= i < j < |ms| ==> ms[i].id != ms[j].id)
    && (forall id :: id in members ==> exists i :: 0 <= i < |ms| && ms[i].id == id)
  }

  /** Exactly a snapshot whose signing keys are all valid restores. */
  lemma {:induction false} RestoresIffKeysValid(isKey: Key -> bool, ms: seq<MemberState>)
    ensures RestoredMembers(isKey, ms).Ok? <==> forall i :: 0 <= i < |ms| ==> isKey(ms[i].signingPublic)
    decreases |ms|
  {
    if ms != [] {
      var n := |ms| - 1;
      RestoresIffKeysValid(isKey, ms[..n]);
      assert forall i :: 0 <= i < n ==> ms[..n][i] == ms[i];
      if RestoredMembers(isKey, ms).Ok? {
        forall i | 0 <= i < |ms| ensures isKey(ms[i].signingPublic) {
          if i < n { assert isKey(ms[..n][i].signingPublic); }
        }
      }
    }
  }

  lemma ListsFewer(ms: seq<MemberState>, members: map<MemberId, Member>, n: nat)
    requires |ms| == n + 1 && Lists(ms, members)
    ensures Lists(ms[..n], members - {ms[n].id})
  {
    assert forall i :: 0 <= i < n ==> ms[..n][i] == ms[i];
    forall id | id in members - {ms[n].id} ensures exists i :: 0 <= i < n && ms[..n][i].id == id {
      var i :| 0 <= i < |ms| && ms[i].id == id;
      assert ms[..n][i].id == id;
    }
  }

  lemma PutBack(members: map<MemberId, Member>, m: MemberState)
    requires m.id in members && members[m.id] == MemberOf(m)
    ensures (members - {m.id})[m.id := MemberOf(m)] == members
  {
  }

  lemma {:induction false} ListedRestores(isKey: Key -> bool, ms: seq<MemberState>, members: map<MemberId, Member>)
    requires Lists(ms, members) && forall id :: id in members ==> isKey(members[id].public)
    ensures RestoredMembers(isKey, ms) == Ok(members)
    decreases |ms|
  {
    if ms == [] {
      assert members == map[];
    } else {
      var n := |ms| - 1;
      ListsFewer(ms, members, n);
      ListedRestores(isKey, ms[..n], members - {ms[n].id});
      PutBack(members, ms[n]);
    }
  }

  /** Restoring a snapshot gives back the whole group, banked keys and chain positions included. */
  lemma SnapshotRestores(isKey: Key -> bool, s: GroupState, v: View)
    requires Snapshots(s, v) && forall id :: id in v.members ==> isKey(v.members[id].public)
    ensures Restored(isKey, s) == Ok(v)
  {
    ListedRestores(isKey, s.members, v.members);
  }

  lemma ListsOneMore(ms: seq<MemberState>, members: map<MemberId, Member>, m: MemberState)
    requires Lists(ms, members) && m.id !in members
    ensures Lists(ms + [m], members[m.id := MemberOf(m)])
  {
    var more := ms + [m];
    assert more[|ms|] == m;
    forall id | id in members ensures exists i :: 0 <= i < |more| && more[i].id == id {
      var i :| 0 <= i < |ms| && ms[i].id == id;
      assert more[i].id == id;
    }
  }

  lemma ListsStep(ms: seq<MemberState>, all: map<MemberId, Member>, todo: set<MemberId>, m: MemberState)
    requires Lists(ms, all - todo) && todo <= all.Keys && m.id in todo && MemberOf(m) == all[m.id]
    ensures Lists(ms + [m], all - (todo - {m.id}))
  {
    ListsOneMore(ms, all - todo, m);
    assert (all - todo)[m.id := all[m.id]] == all - (todo - {m.id});
  }

  // ----- the group -----

  class Group {
    const suite: Suite
    /** Whether bytes are a signing key at all. */
    const isKey: Key -> bool
    const ownId: MemberId
    var own: SenderKey
    var members: map<MemberId, ReceiverKey>

    /** Members have receiver keys of their own, with valid signing keys. */
    ghost predicate Valid()
      reads this
    {
      && own.suite == suite
      && (forall id :: id in members ==> members[id].suite == suite && isKey(members[id].signingPublic))
      && (forall a, b :: a in members && b in members && a != b ==> members[a] != members[b])
    }

    ghost function Members(): map<MemberId, Member>
      reads this, members.Values
    {
      map id | id in members :: Member(members[id].signingPublic, members[id].State())
    }

    ghost function State(): View
      reads this, own, members.Values
    {
      View(ownId, own.signing, own.chainKey, own.iteration, Members())
    }

    constructor (suite: Suite, isKey: Key -> bool, ownId: MemberId, own: SenderKey)
      requires own.suite == suite
      ensures Valid() && this.own == own && members == map[]
      ensures this.suite == suite && this.isKey == isKey && this.ownId == ownId
    {
      this.suite, this.isKey, this.ownId, this.own, members := suite, isKey, ownId, own, map[];
    }

    method AddMember(id: MemberId, dist: Distribution) returns (r: Result<(), Failure>)
      requires Valid()
      modifies this`members
      ensures Valid()
      ensures r.Ok? <==> isKey(dist.signingPublic)
      ensures Members() == if r.Ok?
                           then old(Members())[id := Member(dist.signingPublic, ReceiverState(dist.chainKey, dist.iteration, []))]
                           else old(Members())
    {
      if !isKey(dist.signingPublic) { return Err(Malformed); }
      var receiver := new ReceiverKey.FromDistribution(suite, dist.chainKey, dist.iteration, dist.signingPublic);
      members := members[id := receiver];
      r := Ok(());
    }

    method RemoveMember(id: MemberId)
      requires Valid()
      modifies this`members
      ensures Valid() && Members() == old(Members()) - {id}
    {
      members := members - {id};
    }

    /** Only the sender's receiver key moves, and only on success; an unknown sender changes nothing. */
    method Decrypt(sender: MemberId, msg: GroupMessage, ad: Bytes) returns (r: Result<Bytes, Failure>)
      requires Valid()
      requires sender in members ==> msg.iteration < U32_MAX || members[sender].iteration + MAX_SKIP < msg.iteration
      modifies members.Values
      ensures Valid()
      ensures sender !in members ==> r == Err(Malformed) && Members() == old(Members())
      ensures sender in members ==>
                var was := old(Members())[sender];
                var (outcome, state) := Decrypted(suite, was.public, was.state, msg, ad);
                && r == (match outcome case Ok(p) => Ok(p) case Err(e) => Err(Refused(e)))
                && Members() == old(Members())[sender := was.(state := state)]
    {
      if sender !in members { return Err(Malformed); }
      var outcome := members[sender].Decrypt(msg, ad);
      r := match outcome case Ok(p) => Ok(p) case Err(e) => Err(Refused(e));
    }

    method Export() returns (s: GroupState)
      requires Valid()
      ensures Snapshots(s, State())
    {
      var todo, listed := members.Keys, [];
      ghost var all := Members();
      while todo != {}
        invariant todo <= all.Keys
        invariant Lists(listed, all - todo)
      {
        var id :| id in todo;
        var entry := Snapshot(id);
        ListsStep(listed, all, todo, entry);
        listed := listed + [entry];
        todo := todo - {id};
      }
      assert all - {} == all;
      s := GroupState(ownId, own.chainKey, own.iteration, own.signing, listed);
    }

    function Snapshot(id: MemberId): (m: MemberState)
      requires id in members
      reads this, members.Values
      ensures m.id == id && MemberOf(m) == Members()[id]
    {
      var receiver := members[id];
      MemberState(id, receiver.chainKey, receiver.iteration, receiver.signingPublic, receiver.skipped)
    }

    method Adopt(m: MemberState)
      requires Valid() && isKey(m.signingPublic)
      modifies this`members
      ensures Valid() && fresh(members.Values - old(members.Values))
      ensures Members() == old(Members())[m.id := MemberOf(m)]
    {
      var receiver := new ReceiverKey.FromDistribution(suite, m.chain, m.iteration, m.signingPublic);
      receiver.skipped := m.skipped;
      members := members[m.id := receiver];
    }

    /** A restored group shares no receiver key with any other group. */
    static method Import(suite: Suite, isKey: Key -> bool, s: GroupState) returns (r: Result<Group, Failure>)
      ensures r.Ok? <==> Restored(isKey, s).Ok?
      ensures r.Ok? ==> fresh(r.value) && fresh(r.value.own) && fresh(r.value.members.Values)
      ensures r.Ok? ==> r.value.Valid() && r.value.suite == suite && r.value.isKey == isKey
      ensures r.Ok? ==> r.value.State() == Restored(isKey, s).value
    {
      RestoresIffKeysValid(isKey, s.members);
      var own := new SenderKey(suite, s.ownSigning, s.ownChain);
      own.iteration := s.ownIteration;
      var g := new Group(suite, isKey, s.ownId, own);
      for i := 0 to |s.members|
        invariant g.own == own && g.Valid() && fresh(g.members.Values)
        invariant own.signing == s.ownSigning && own.chainKey == s.ownChain && own.iteration == s.ownIteration
        invariant RestoredMembers(isKey, s.members[..i]) == Ok(g.Members())
      {
        var m := s.members[i];
        assert s.members[..i + 1][..i] == s.members[..i];
        if !isKey(m.signingPublic) { return Err(Malformed); }
        g.Adopt(m);
      }
      assert s.members[..|s.members|] == s.members;
      r := Ok(g);
    }
  }
}
