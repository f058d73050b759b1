/**
 Concurrent publication of signed public records.
 Uploaders write a content-addressed file, check freshness against the current
 record, compare-and-swap the account's pointer and delete the file they replaced;
 readers follow the pointer. No lock spans these steps, so the model is an
 interleaving of atomic store and file operations, one program counter per request.
 A request may die at any point.
 */
module Publish {
  import opened Common

  type Account = nat
  type User = nat
  type Wallet = nat

  /** What a byte string decodes to. `wallet` signs it and `user` is derived from `wallet` (checked by verification). */
  datatype Record = Record(wallet: Wallet, version: Freshness)

  /** An uploaded byte string that decodes and verifies; `variant` tells apart different bytes of one record. */
  datatype Blob = Blob(record: Record, variant: nat)

  function UserOf(wallet: Wallet): User { wallet }

  /** With `current` published, `b` is refused as stale. */
  predicate Beats(current: Blob, b: Blob) {
    || Fresher(current.record.version, b.record.version)
    || (current.record.version == b.record.version && current != b)
  }

  // ----- state -----

  datatype Pc =
    | WriteFile
    | LoadRecovery
    | ReadPointer
    | ReadFile(at: Blob)
    | Recheck(at: Blob)
    | Swap(expected: Option<Blob>)
    | RemoveReplaced(previous: Option<Blob>)
    | RemoveOwn(outcome: Outcome)
    | Finished(outcome: Outcome)

  datatype Outcome =
    | Published
    | Loaded(found: Option<Blob>)
    | Refused
    | UserIdTaken
    | MissingBlob
    | Died

  datatype Task = Upload(blob: Blob) | Read

  datatype Request = Request(account: Account, task: Task, pc: Pc)

  datatype Registry = Registry(
    files: set<(Account, Blob)>,
    pointer: map<Account, Blob>,
    users: map<User, Account>,
    recovery: map<Account, Wallet>,
    requests: seq<Request>)

  function Current(s: Registry, a: Account): Option<Blob> {
    if a in s.pointer then Some(s.pointer[a]) else None
  }

  // ----- steps -----

  datatype Event =
    | Arrive(account: Account, task: Task)
    | StoreRecovery(account: Account, wallet: Wallet)
    | Advance(request: nat)
    | Die(request: nat)

  function At(s: Registry, i: nat, pc: Pc): Registry
    requires i < |s.requests|
  {
    s.(requests := s.requests[i := s.requests[i].(pc := pc)])
  }

  /** `load_current_blob` failed because the current reference has no file. */
  function LoadFailed(task: Task): Pc {
    if task.Upload? then RemoveOwn(MissingBlob) else Finished(MissingBlob)
  }

  /** The bytes `current` were read; an upload is now compared with them. */
  function Compare(task: Task, current: Blob): Pc {
    match task
    case Read => Finished(Loaded(Some(current)))
    case Upload(b) =>
      if UserOf(current.record.wallet) != UserOf(b.record.wallet) then RemoveOwn(Refused)
      else if Fresher(current.record.version, b.record.version) || (b.record.version == current.record.version && b != current)
      then RemoveOwn(Refused)
      else Swap(Some(current))
  }

  /** `compare_and_swap_public_record_ref`: pointer and user index change in one transaction. */
  function SwapPointer(s: Registry, i: nat, b: Blob, expected: Option<Blob>): Registry
    requires i < |s.requests|
  {
    var a := s.requests[i].account;
    var user := UserOf(b.record.wallet);
    if Current(s, a) != expected then At(s, i, LoadRecovery)
    else if user in s.users && s.users[user] != a then At(s, i, Finished(UserIdTaken))
    else
      var bound := s.users[user := a];
      var users :=
        if expected.Some? && UserOf(expected.value.record.wallet) != user
           && UserOf(expected.value.record.wallet) in bound && bound[UserOf(expected.value.record.wallet)] == a
        then bound - {UserOf(expected.value.record.wallet)}
        else bound;
      At(s.(pointer := s.pointer[a := b], users := users), i, RemoveReplaced(expected))
  }

  function Advanced(s: Registry, i: nat): Registry
    requires i < |s.requests|
  {
    var q := s.requests[i];
    var a := q.account;
    match (q.pc, q.task)
    case (WriteFile, Upload(b)) => At(s.(files := s.files + {(a, b)}), i, LoadRecovery)
    case (WriteFile, Read) => At(s, i, ReadPointer)
    case (LoadRecovery, Upload(b)) =>
      At(s, i, if a in s.recovery && s.recovery[a] == b.record.wallet then ReadPointer else RemoveOwn(Refused))
    case (ReadPointer, Upload(_)) =>
      At(s, i, if a in s.pointer then ReadFile(s.pointer[a]) else Swap(None))
    case (ReadPointer, Read) =>
      At(s, i, if a in s.pointer then ReadFile(s.pointer[a]) else Finished(Loaded(None)))
    case (ReadFile(c), _) =>
      At(s, i, if (a, c) in s.files then Compare(q.task, c) else Recheck(c))
    case (Recheck(c), _) =>
      At(s, i, if Current(s, a) == Some(c) then LoadFailed(q.task) else ReadPointer)
    case (Swap(expected), Upload(b)) => SwapPointer(s, i, b, expected)
    case (RemoveReplaced(previous), Upload(b)) =>
      At(if previous.Some? && previous.value != b then s.(files := s.files - {(a, previous.value)}) else s,
         i, Finished(Published))
    case (RemoveOwn(outcome), Upload(b)) => At(s.(files := s.files - {(a, b)}), i, Finished(outcome))
    case _ => s
  }

  function Next(s: Registry, e: Event): Registry {
    match e
    case Arrive(a, task) =>
      s.(requests := s.requests + [Request(a, task, WriteFile)])
    case StoreRecovery(a, w) =>
      if a in s.recovery then s else s.(recovery := s.recovery[a := w])
    case Advance(i) => if i < |s.requests| then Advanced(s, i) else s
    case Die(i) =>
      if i < |s.requests| && !s.requests[i].pc.Finished? then At(s, i, Finished(Died)) else s
  }

  function Run(s: Registry, events: seq<Event>): Registry
    decreases |events|
  {
    if events == [] then s else Next(Run(s, events[..|events| - 1]), events[|events| - 1])
  }

  // ----- invariant, for the accounts whose recovery secret is stored -----

  predicate Foreign(s: Registry, a: Account, b: Blob) {
    a !in s.recovery || s.recovery[a] != b.record.wallet
  }

  /** No upload of `b` can be installed any more. */
  predicate Doomed(s: Registry, a: Account, b: Blob) {
    Foreign(s, a, b) || (a in s.pointer && Beats(s.pointer[a], b))
  }

  /** `c` is published now or was before, and only fresher records have been published since. */
  predicate WasCurrent(s: Registry, a: Account, c: Blob) {
    a in s.pointer && AtLeast(s.pointer[a], c)
  }

  predicate AtLeast(x: Blob, y: Blob) {
    x == y || Fresher(x.record.version, y.record.version)
  }

  predicate Superseded(s: Registry, a: Account, c: Blob) {
    a in s.pointer && Fresher(s.pointer[a].record.version, c.record.version)
  }

  predicate PcOk(s: Registry, q: Request) {
    && (q.task.Upload? && (q.pc.ReadPointer? || q.pc.ReadFile? || q.pc.Recheck? || q.pc.Swap?)
        ==> !Foreign(s, q.account, q.task.blob))
    && match q.pc
       case WriteFile => true
       case LoadRecovery => q.task.Upload?
       case ReadPointer => true
       case ReadFile(c) => WasCurrent(s, q.account, c) && !Foreign(s, q.account, c)
       case Recheck(c) => Superseded(s, q.account, c)
       case Swap(expected) =>
         && q.task.Upload?
         && (expected.Some? ==> AtLeast(q.task.blob, expected.value))
       case RemoveReplaced(previous) =>
         && q.task.Upload?
         && (previous.Some? && previous.value != q.task.blob ==> Superseded(s, q.account, previous.value))
         && WasCurrent(s, q.account, q.task.blob)
       case RemoveOwn(outcome) => q.task.Upload? && outcome == Refused && Doomed(s, q.account, q.task.blob)
       case Finished(outcome) => OutcomeOk(s, q.account, q.task, outcome)
  }

  /** What the outcome of a finished request says of the account. */
  predicate OutcomeOk(s: Registry, a: Account, task: Task, outcome: Outcome) {
    match outcome
    case Published => task.Upload? && WasCurrent(s, a, task.blob)
    case Loaded(found) => task.Read? && (found.Some? ==> WasCurrent(s, a, found.value))
    case Refused => task.Upload? && Doomed(s, a, task.blob)
    case UserIdTaken => task.Upload?
    case MissingBlob => false
    case Died => true
  }

  predicate InFlight(pc: Pc) {
    pc.LoadRecovery? || pc.ReadPointer? || pc.ReadFile? || pc.Recheck? || pc.Swap?
  }

  /** The file of an upload in flight is present, or that upload can no longer install it. */
  predicate RequestOk(s: Registry, q: Request) {
    && PcOk(s, q)
    && (q.task.Upload? && InFlight(q.pc) ==>
          (q.account, q.task.blob) in s.files || Doomed(s, q.account, q.task.blob))
  }

  predicate PointerOk(s: Registry, a: Account) {
    a in s.pointer ==> (a, s.pointer[a]) in s.files && !Foreign(s, a, s.pointer[a])
  }

  ghost predicate Inv(s: Registry, a: Account) {
    && a in s.recovery
    && PointerOk(s, a)
    && (forall i :: 0 <= i < |s.requests| && s.requests[i].account == a ==> RequestOk(s, s.requests[i]))
  }

  /** What one step may do to an account: keep its recovery wallet, move its pointer forward, delete only doomed files. */
  ghost predicate Forward(s: Registry, s': Registry, a: Account) {
    && a in s.recovery && a in s'.recovery && s'.recovery[a] == s.recovery[a]
    && (a in s.pointer ==> a in s'.pointer && AtLeast(s'.pointer[a], s.pointer[a]))
    && (forall b :: (a, b) in s.files && (a, b) !in s'.files ==> Doomed(s', a, b))
  }

  lemma RequestStable(s: Registry, s': Registry, q: Request)
    requires Forward(s, s', q.account) && RequestOk(s, q)
    ensures RequestOk(s', q)
  {
  }

  lemma StepKeeps(s: Registry, s': Registry, a: Account, i: nat)
    requires Inv(s, a) && Forward(s, s', a) && PointerOk(s', a)
    requires i < |s'.requests|
    requires s'.requests[i].account == a ==> RequestOk(s', s'.requests[i])
    requires |s.requests| <= |s'.requests| <= |s.requests| + 1
    requires |s'.requests| > |s.requests| ==> i == |s.requests|
    requires forall j :: 0 <= j < |s.requests| && j != i ==> s'.requests[j] == s.requests[j]
    ensures Inv(s', a)
  {
    forall j | 0 <= j < |s'.requests| && s'.requests[j].account == a
      ensures RequestOk(s', s'.requests[j])
    {
      if j != i {
        RequestStable(s, s', s.requests[j]);
      }
    }
  }

  /** The swap installs an upload only while its file is present, and only over an older record. */
  lemma SwapKeeps(s: Registry, a: Account, i: nat)
    requires Inv(s, a) && i < |s.requests| && s.requests[i].pc.Swap? && s.requests[i].task.Upload?
    ensures Inv(Advanced(s, i), a) && Forward(s, Advanced(s, i), a)
  {
    var s' := Advanced(s, i);
    if s.requests[i].account == a {
      assert RequestOk(s, s.requests[i]);
    }
    StepKeeps(s, s', a, i);
  }

  /** Every step but the swap leaves the pointers alone and deletes only doomed files. */
  lemma OtherStepsMoveForward(s: Registry, a: Account, i: nat)
    requires Inv(s, a) && i < |s.requests| && !(s.requests[i].pc.Swap? && s.requests[i].task.Upload?)
    ensures var s' := Advanced(s, i);
      Forward(s, s', a) && PointerOk(s', a) && (s.requests[i].account == a ==> RequestOk(s', s'.requests[i]))
  {
    if s.requests[i].account == a {
      assert RequestOk(s, s.requests[i]);
    }
    match s.requests[i].pc
    case ReadFile(_) =>
    case Recheck(_) =>
    case RemoveReplaced(_) =>
    case _ =>
  }

  lemma AdvanceKeeps(s: Registry, a: Account, i: nat)
    requires Inv(s, a) && i < |s.requests|
    ensures Inv(Advanced(s, i), a) && Forward(s, Advanced(s, i), a)
  {
    if s.requests[i].pc.Swap? && s.requests[i].task.Upload? {
      SwapKeeps(s, a, i);
    } else {
      OtherStepsMoveForward(s, a, i);
      forall j | 0 <= j < |s.requests|
        ensures |Advanced(s, i).requests| == |s.requests|
        ensures j != i ==> Advanced(s, i).requests[j] == s.requests[j]
        ensures Advanced(s, i).requests[i].account == s.requests[i].account
      {
        OthersKeepTheirPlace(s, i, j);
      }
      StepKeeps(s, Advanced(s, i), a, i);
    }
  }

  lemma NextKeeps(s: Registry, a: Account, e: Event)
    requires Inv(s, a)
    ensures Inv(Next(s, e), a) && Forward(s, Next(s, e), a)
  {
    match e
    case Advance(i) => if i < |s.requests| { AdvanceKeeps(s, a, i); }
    case Arrive(_, _) => StepKeeps(s, Next(s, e), a, |s.requests|);
    case Die(i) => if Next(s, e) != s { StepKeeps(s, Next(s, e), a, i); }
    case StoreRecovery(_, _) =>
      var s' := Next(s, e);
      forall j | 0 <= j < |s'.requests| && s'.requests[j].account == a
        ensures RequestOk(s', s'.requests[j])
      {
        RequestStable(s, s', s.requests[j]);
      }
  }

  // ----- main results -----

  predicate Dangling(s: Registry, a: Account) {
    a in s.pointer && (a, s.pointer[a]) !in s.files
  }

  function Init(recovery: map<Account, Wallet>): Registry {
    Registry({}, map[], map[], recovery, [])
  }

  /**
   In every interleaving, for an account whose recovery secret is stored: the pointer
   resolves to a present file, its record only ever gets fresher, and no request ever
   reports missing bytes.
   */
  lemma {:induction false} PointerAlwaysResolves(s: Registry, a: Account, events: seq<Event>)
    requires Inv(s, a)
    ensures var s' := Run(s, events);
      && Inv(s', a) && !Dangling(s', a)
      && (a in s.pointer ==> a in s'.pointer && AtLeast(s'.pointer[a], s.pointer[a]))
      && (forall i :: 0 <= i < |s'.requests| && s'.requests[i].account == a ==> s'.requests[i].pc != Finished(MissingBlob))
    decreases |events|
  {
    if events != [] {
      var before := events[..|events| - 1];
      PointerAlwaysResolves(s, a, before);
      NextKeeps(Run(s, before), a, events[|events| - 1]);
    }
    var s' := Run(s, events);
    forall i | 0 <= i < |s'.requests| && s'.requests[i].account == a
      ensures s'.requests[i].pc != Finished(MissingBlob)
    {
      assert RequestOk(s', s'.requests[i]);
    }
  }

  lemma RunStep(s: Registry, events: seq<Event>, e: Event)
    ensures Run(s, events + [e]) == Next(Run(s, events), e)
  {
    assert (events + [e])[..|events|] == events;
  }

  /** A first record signed by this wallet. */
  function FirstBlob(wallet: Wallet): Blob {
    Blob(Record(wallet, Freshness(1, 1, 1)), 0)
  }

  function Uploading(a: Account, wallet: Wallet, pc: Pc): Request {
    Request(a, Upload(FirstBlob(wallet)), pc)
  }

  /** The first upload is refused, and the secret is stored before it deletes its file. */
  lemma RefusedUpload(recovery: map<Account, Wallet>, a: Account) returns (events: seq<Event>, s: Registry)
    requires a !in recovery
    ensures s == Run(Init(recovery), events)
    ensures s == Registry({(a, FirstBlob(0))}, map[], map[], recovery[a := 0], [Uploading(a, 0, RemoveOwn(Refused))])
  {
    events, s := [], Init(recovery);
    events, s := Then(recovery, events, s, Arrive(a, Upload(FirstBlob(0))));
    events, s := Then(recovery, events, s, Advance(0));
    assert s == Registry({(a, FirstBlob(0))}, map[], map[], recovery, [Uploading(a, 0, LoadRecovery)]);
    events, s := Then(recovery, events, s, Advance(0));
    events, s := Then(recovery, events, s, StoreRecovery(a, 0));
  }

  /** A second upload of the same bytes is installed meanwhile. */
  lemma InstalledUpload(recovery: map<Account, Wallet>, a: Account) returns (events: seq<Event>, s: Registry)
    requires a !in recovery
    ensures s == Run(Init(recovery), events)
    ensures s == Registry({(a, FirstBlob(0))}, map[a := FirstBlob(0)], map[0 := a], recovery[a := 0],
                          [Uploading(a, 0, RemoveOwn(Refused)), Uploading(a, 0, RemoveReplaced(None))])
  {
    events, s := RefusedUpload(recovery, a);
    var stored := recovery[a := 0];
    events, s := Then(recovery, events, s, Arrive(a, Upload(FirstBlob(0))));
    events, s := Then(recovery, events, s, Advance(1));
    assert s == Registry({(a, FirstBlob(0))}, map[], map[], stored, [Uploading(a, 0, RemoveOwn(Refused)), Uploading(a, 0, LoadRecovery)]);
    events, s := Then(recovery, events, s, Advance(1));
    events, s := Then(recovery, events, s, Advance(1));
    assert s == Registry({(a, FirstBlob(0))}, map[], map[], stored, [Uploading(a, 0, RemoveOwn(Refused)), Uploading(a, 0, Swap(None))]);
    events, s := Then(recovery, events, s, Advance(1));
  }

  /**
   Without a stored recovery secret the pointer can dangle: an upload that was refused for
   want of the secret deletes its file after a second upload of the same bytes, made once
   the secret was stored, has been installed.
   */
  lemma DanglesWithoutRecovery(recovery: map<Account, Wallet>, a: Account) returns (events: seq<Event>)
    requires a !in recovery
    ensures Dangling(Run(Init(recovery), events), a)
  {
    var s;
    events, s := InstalledUpload(recovery, a);
    events, s := Then(recovery, events, s, Advance(0));
  }

  lemma Then(recovery: map<Account, Wallet>, events: seq<Event>, s: Registry, e: Event)
    returns (events': seq<Event>, s': Registry)
    requires s == Run(Init(recovery), events)
    ensures events' == events + [e] && s' == Next(s, e) && s' == Run(Init(recovery), events')
  {
    RunStep(Init(recovery), events, e);
    events', s' := events + [e], Next(s, e);
  }

  predicate DanglesAfter(recovery: map<Account, Wallet>, a: Account, events: seq<Event>) {
    Dangling(Run(Init(recovery), events), a)
  }

  ghost predicate NeverDangles(recovery: map<Account, Wallet>, a: Account) {
    forall events: seq<Event> :: !DanglesAfter(recovery, a, events)
  }

  /** Exactly the accounts whose secret is stored before the first upload are safe in every run. */
  lemma SafeIffRecoveryStoredFirst(recovery: map<Account, Wallet>, a: Account)
    ensures NeverDangles(recovery, a) <==> a in recovery
  {
    if a in recovery {
      forall events: seq<Event> ensures !DanglesAfter(recovery, a, events) {
        PointerAlwaysResolves(Init(recovery), a, events);
      }
    } else {
      var events := DanglesWithoutRecovery(recovery, a);
      assert DanglesAfter(recovery, a, events);
    }
  }

  // ----- readers -----

  /** A read that has not yet looked at the pointer while `p0` is published. */
  predicate ReaderOk(p0: Blob, q: Request) {
    && q.task.Read?
    && match q.pc
       case WriteFile => true
       case ReadPointer => true
       case ReadFile(c) => AtLeast(c, p0)
       case Recheck(c) => true
       case Finished(Loaded(found)) => found.Some? && AtLeast(found.value, p0)
       case Finished(Died) => true
       case _ => false
  }

  lemma ReaderStep(s: Registry, a: Account, i: nat, p0: Blob, e: Event)
    requires Inv(s, a) && a in s.pointer && AtLeast(s.pointer[a], p0)
    requires i < |s.requests| && s.requests[i].account == a && ReaderOk(p0, s.requests[i])
    ensures var s' := Next(s, e);
      i < |s'.requests| && s'.requests[i].account == a && ReaderOk(p0, s'.requests[i])
  {
    assert RequestOk(s, s.requests[i]);
  }

  /** A read that starts while `p0` is published never fails and never returns anything older than `p0`. */
  lemma {:induction false} ReadsAreNotStale(s: Registry, a: Account, i: nat, events: seq<Event>)
    requires Inv(s, a) && a in s.pointer
    requires i < |s.requests| && s.requests[i].account == a
    requires s.requests[i].task.Read? && (s.requests[i].pc.WriteFile? || s.requests[i].pc.ReadPointer?)
    ensures var s' := Run(s, events);
      i < |s'.requests| && s'.requests[i].account == a && ReaderOk(s.pointer[a], s'.requests[i])
    decreases |events|
  {
    if events != [] {
      var before := events[..|events| - 1];
      ReadsAreNotStale(s, a, i, before);
      PointerAlwaysResolves(s, a, before);
      ReaderStep(Run(s, before), a, i, s.pointer[a], events[|events| - 1]);
    }
  }

  // ----- the user index -----

  function UserAt(s: Registry, a: Account): User
    requires a in s.pointer
  {
    UserOf(s.pointer[a].record.wallet)
  }

  predicate SameUser(q: Request) {
    q.pc.Swap? && q.pc.expected.Some? ==>
      q.task.Upload? && UserOf(q.pc.expected.value.record.wallet) == UserOf(q.task.blob.record.wallet)
  }

  ghost predicate UsersExact(s: Registry) {
    && (forall a :: a in s.pointer ==> UserAt(s, a) in s.users && s.users[UserAt(s, a)] == a)
    && (forall u :: u in s.users ==> s.users[u] in s.pointer && UserAt(s, s.users[u]) == u)
    && (forall i :: 0 <= i < |s.requests| ==> SameUser(s.requests[i]))
  }

  lemma UsersSwap(s: Registry, i: nat)
    requires UsersExact(s)
    requires i < |s.requests| && s.requests[i].pc.Swap? && s.requests[i].task.Upload?
    ensures UsersExact(Advanced(s, i))
  {
    var a, b, expected := s.requests[i].account, s.requests[i].task.blob, s.requests[i].pc.expected;
    var s' := Advanced(s, i);
    var user := UserOf(b.record.wallet);
    assert s'.requests == s.requests[i := s.requests[i].(pc := s'.requests[i].pc)];
    if s'.pointer != s.pointer {
      assert s'.users == s.users[user := a];
      assert s'.pointer == s.pointer[a := b];
      if user in s.users { assert UserAt(s, a) == user; }
      forall u | u in s'.users ensures s'.users[u] in s'.pointer && UserAt(s', s'.users[u]) == u {
        if u != user {
          assert u in s.users;
          assert expected.Some? ==> UserAt(s, a) == user;
        }
      }
    }
  }

  /** Only the swap touches pointers and the index; a request reaches it after comparing user ids. */
  lemma OtherStepsLeaveIndex(s: Registry, i: nat)
    requires i < |s.requests| && !(s.requests[i].pc.Swap? && s.requests[i].task.Upload?)
    requires SameUser(s.requests[i])
    ensures var s' := Advanced(s, i);
      && s'.pointer == s.pointer && s'.users == s.users
      && s'.requests == s.requests[i := s'.requests[i]]
      && SameUser(s'.requests[i])
  {
    match s.requests[i].pc
    case ReadFile(_) =>
    case Recheck(_) =>
    case ReadPointer =>
    case _ =>
  }

  lemma UsersFrame(s: Registry, s': Registry, i: nat)
    requires UsersExact(s) && i < |s.requests|
    requires s'.pointer == s.pointer && s'.users == s.users
    requires |s'.requests| == |s.requests| && s'.requests == s.requests[i := s'.requests[i]] && SameUser(s'.requests[i])
    ensures UsersExact(s')
  {
    assert forall a :: a in s.pointer ==> UserAt(s', a) == UserAt(s, a);
    forall j | 0 <= j < |s'.requests| ensures SameUser(s'.requests[j]) {
      assert j != i ==> s'.requests[j] == s.requests[j];
    }
  }

  lemma UsersAdvance(s: Registry, i: nat)
    requires UsersExact(s) && i < |s.requests|
    ensures UsersExact(Advanced(s, i))
  {
    if s.requests[i].pc.Swap? && s.requests[i].task.Upload? {
      UsersSwap(s, i);
    } else {
      OtherStepsLeaveIndex(s, i);
      UsersFrame(s, Advanced(s, i), i);
    }
  }

  lemma UsersStep(s: Registry, e: Event)
    requires UsersExact(s)
    ensures UsersExact(Next(s, e))
  {
    match e
    case Advance(i) => if i < |s.requests| { UsersAdvance(s, i); }
    case _ =>
  }

  /**
   The user index is the exact inverse of the published records: a user id resolves to the one
   account whose current record carries it, so no two accounts publish under one user id.
   */
  lemma {:induction false} UserIndexIsExact(s: Registry, events: seq<Event>)
    requires UsersExact(s)
    ensures UsersExact(Run(s, events))
    ensures var s' := Run(s, events);
      forall a, a' | a in s'.pointer && a' in s'.pointer && UserAt(s', a) == UserAt(s', a') :: a == a'
    decreases |events|
  {
    if events != [] {
      UserIndexIsExact(s, events[..|events| - 1]);
      UsersStep(Run(s, events[..|events| - 1]), events[|events| - 1]);
    }
  }

  // ----- no file is left behind -----

  /** The request will still install or delete the file, or gave it up because the user id is taken. */
  predicate Responsible(q: Request, b: Blob) {
    && q.task.Upload?
    && if q.task.blob == b
       then InFlight(q.pc) || q.pc.RemoveOwn? || q.pc == Finished(UserIdTaken)
       else q.pc == RemoveReplaced(Some(b))
  }

  ghost predicate Owned(s: Registry, a: Account, b: Blob) {
    || Current(s, a) == Some(b)
    || exists i :: 0 <= i < |s.requests| && s.requests[i].account == a && Responsible(s.requests[i], b)
  }

  ghost predicate Clean(s: Registry) {
    forall a, b :: (a, b) in s.files ==> Owned(s, a, b)
  }

  /** A step changes its own request only, and a request gives a file up only by deleting or installing it. */
  lemma GivesUpOnlyDeleted(s: Registry, i: nat, b: Blob)
    requires i < |s.requests| && Responsible(s.requests[i], b)
    requires (s.requests[i].account, b) in Advanced(s, i).files
    ensures var s' := Advanced(s, i);
      Responsible(s'.requests[i], b) || Current(s', s.requests[i].account) == Some(b)
  {
    match s.requests[i].pc
    case Swap(_) =>
    case ReadFile(_) =>
    case _ =>
  }

  lemma ReplacedIsOwned(s: Registry, i: nat, a: Account, b: Blob)
    requires i < |s.requests| && Current(s, a) == Some(b)
    ensures var s' := Advanced(s, i);
      Current(s', a) == Some(b) || (s'.requests[i].account == a && Responsible(s'.requests[i], b))
  {
  }

  lemma NewFileIsOwned(s: Registry, i: nat, a: Account, b: Blob)
    requires i < |s.requests| && (a, b) !in s.files && (a, b) in Advanced(s, i).files
    ensures Advanced(s, i).requests[i].account == a && Responsible(Advanced(s, i).requests[i], b)
  {
  }

  lemma OthersKeepTheirPlace(s: Registry, i: nat, j: nat)
    requires i < |s.requests| && j < |s.requests|
    ensures |Advanced(s, i).requests| == |s.requests|
    ensures j != i ==> Advanced(s, i).requests[j] == s.requests[j]
    ensures Advanced(s, i).requests[i].account == s.requests[i].account
  {
    match s.requests[i].pc
    case Swap(_) =>
    case ReadFile(_) =>
    case Recheck(_) =>
    case _ =>
  }

  lemma OwnedAfter(s: Registry, i: nat, a: Account, b: Blob)
    requires i < |s.requests| && (a, b) in Advanced(s, i).files
    requires (a, b) in s.files ==> Owned(s, a, b)
    ensures Owned(Advanced(s, i), a, b)
  {
    OthersKeepTheirPlace(s, i, i);
    if (a, b) !in s.files {
      NewFileIsOwned(s, i, a, b);
    } else if Current(s, a) == Some(b) {
      ReplacedIsOwned(s, i, a, b);
    } else {
      var j :| 0 <= j < |s.requests| && s.requests[j].account == a && Responsible(s.requests[j], b);
      OthersKeepTheirPlace(s, i, j);
      if j == i { GivesUpOnlyDeleted(s, i, b); }
    }
  }

  lemma OwnedElsewhere(s: Registry, s': Registry, a: Account, b: Blob)
    requires Owned(s, a, b) && s'.pointer == s.pointer && s.requests <= s'.requests
    ensures Owned(s', a, b)
  {
    if Current(s, a) != Some(b) {
      var j :| 0 <= j < |s.requests| && s.requests[j].account == a && Responsible(s.requests[j], b);
      assert s'.requests[j] == s.requests[j];
    }
  }

  lemma StepIsClean(s: Registry, e: Event)
    requires Clean(s) && !e.Die?
    ensures Clean(Next(s, e))
  {
    var s' := Next(s, e);
    forall a, b | (a, b) in s'.files ensures Owned(s', a, b) {
      if e.Advance? && e.request < |s.requests| {
        OwnedAfter(s, e.request, a, b);
      } else {
        assert s.requests <= s'.requests;
        OwnedElsewhere(s, s', a, b);
      }
    }
  }

  /**
   Unless a request dies, every file is the current one of its account, or some unfinished upload
   still has to install or delete it, or it was left by an upload whose user id is taken.
   */
  lemma {:induction false} NoFileIsLeftBehind(s: Registry, events: seq<Event>)
    requires Clean(s) && forall k :: 0 <= k < |events| ==> !events[k].Die?
    ensures Clean(Run(s, events))
    decreases |events|
  {
    if events != [] {
      var n := |events| - 1;
      NoFileIsLeftBehind(s, events[..n]);
      StepIsClean(Run(s, events[..n]), events[n]);
    }
  }

  /** Once all requests of such a run have finished, without a user id conflict, only current files remain. */
  lemma OnlyCurrentFilesRemain(s: Registry, events: seq<Event>)
    requires Clean(s) && forall k :: 0 <= k < |events| ==> !events[k].Die?
    requires forall i :: 0 <= i < |Run(s, events).requests| ==>
               Run(s, events).requests[i].pc.Finished? && Run(s, events).requests[i].pc != Finished(UserIdTaken)
    ensures forall a, b :: (a, b) in Run(s, events).files ==> Current(Run(s, events), a) == Some(b)
  {
    NoFileIsLeftBehind(s, events);
  }

  // ----- the file left by an upload whose user id is taken -----

  /** The request is about to delete this file. */
  predicate Deletes(q: Request, a: Account, b: Blob) {
    && q.account == a && q.task.Upload?
    && if q.task.blob == b then q.pc.RemoveOwn? else q.pc == RemoveReplaced(Some(b))
  }

  /** A step deletes a file exactly when its request is about to. */
  lemma DeletedIff(s: Registry, e: Event, a: Account, b: Blob)
    requires (a, b) in s.files
    ensures (a, b) !in Next(s, e).files <==>
            e.Advance? && e.request < |s.requests| && Deletes(s.requests[e.request], a, b)
  {
  }

  /** Not current, and nobody is left who would install or delete it. */
  ghost predicate Abandoned(s: Registry, a: Account, b: Blob) {
    && (a, b) in s.files && Current(s, a) != Some(b)
    && forall i :: 0 <= i < |s.requests| && s.requests[i].account == a ==> LetsBe(s.requests[i], b)
  }

  predicate LetsBe(q: Request, b: Blob) {
    (q.task == Upload(b) ==> q.pc.Finished?) && q.pc != RemoveReplaced(Some(b))
  }

  lemma AdvanceLetsBe(s: Registry, i: nat, a: Account, b: Blob)
    requires i < |s.requests| && Current(s, a) != Some(b)
    requires s.requests[i].account == a ==> LetsBe(s.requests[i], b)
    ensures Current(Advanced(s, i), a) != Some(b)
    ensures s.requests[i].account == a ==> LetsBe(Advanced(s, i).requests[i], b)
  {
    match s.requests[i].pc
    case Swap(_) =>
    case ReadFile(_) =>
    case _ =>
  }

  lemma AbandonedStep(s: Registry, e: Event, a: Account, b: Blob)
    requires Abandoned(s, a, b) && e != Arrive(a, Upload(b))
    ensures Abandoned(Next(s, e), a, b)
  {
    DeletedIff(s, e, a, b);
    if e.Advance? && e.request < |s.requests| {
      AdvanceLetsBe(s, e.request, a, b);
      forall j | 0 <= j < |s.requests|
        ensures j != e.request ==> Next(s, e).requests[j] == s.requests[j]
        ensures |Next(s, e).requests| == |s.requests| && Next(s, e).requests[e.request].account == s.requests[e.request].account
      {
        OthersKeepTheirPlace(s, e.request, j);
      }
    }
  }

  /** An abandoned file stays until its account uploads the same bytes again, whatever else happens. */
  lemma {:induction false} AbandonedFileStays(s: Registry, events: seq<Event>, a: Account, b: Blob)
    requires Abandoned(s, a, b) && forall k :: 0 <= k < |events| ==> events[k] != Arrive(a, Upload(b))
    ensures Abandoned(Run(s, events), a, b)
    decreases |events|
  {
    if events != [] {
      var n := |events| - 1;
      AbandonedFileStays(s, events[..n], a, b);
      AbandonedStep(Run(s, events[..n]), events[n], a, b);
    }
  }

  /** Two accounts with one recovery secret publish the same record: the second is refused and its file is abandoned. */
  lemma TakenUserIdAbandonsFile(recovery: map<Account, Wallet>, a: Account, other: Account) returns (events: seq<Event>)
    requires a != other && a in recovery && other in recovery && recovery[a] == recovery[other]
    ensures Quiet(recovery, events)
    ensures Abandoned(Run(Init(recovery), events), other, FirstBlob(recovery[a]))
  {
    var w := recovery[a];
    var s;
    events, s := SecondUploads(recovery, a, other);
    events, s := Then(recovery, events, s, Advance(1));
    events, s := Then(recovery, events, s, Advance(1));
    assert s.requests == [Uploading(a, w, Finished(Published)), Uploading(other, w, Finished(UserIdTaken))];
  }

  /** No request dies and no secret is stored during the run. */
  predicate Calm(events: seq<Event>) {
    forall k :: 0 <= k < |events| ==> !events[k].Die? && !events[k].StoreRecovery?
  }

  lemma SecondUploads(recovery: map<Account, Wallet>, a: Account, other: Account) returns (events: seq<Event>, s: Registry)
    requires a != other && a in recovery && other in recovery && recovery[a] == recovery[other]
    ensures s == Run(Init(recovery), events) && Calm(events)
    ensures var w := recovery[a];
      s == Registry({(a, FirstBlob(w)), (other, FirstBlob(w))}, map[a := FirstBlob(w)], map[w := a], recovery,
                    [Uploading(a, w, Finished(Published)), Uploading(other, w, ReadPointer)])
  {
    var w := recovery[a];
    events, s := FirstPublishes(recovery, a);
    events, s := Then(recovery, events, s, Arrive(other, Upload(FirstBlob(w))));
    assert s.requests == [Uploading(a, w, Finished(Published)), Uploading(other, w, WriteFile)];
    events, s := Then(recovery, events, s, Advance(1));
    assert s.requests == [Uploading(a, w, Finished(Published)), Uploading(other, w, LoadRecovery)];
    events, s := Then(recovery, events, s, Advance(1));
  }

  lemma FirstPublishes(recovery: map<Account, Wallet>, a: Account) returns (events: seq<Event>, s: Registry)
    requires a in recovery
    ensures s == Run(Init(recovery), events) && Calm(events)
    ensures var w := recovery[a];
      s == Registry({(a, FirstBlob(w))}, map[a := FirstBlob(w)], map[w := a], recovery, [Uploading(a, w, Finished(Published))])
  {
    var w := recovery[a];
    events, s := [], Init(recovery);
    events, s := Then(recovery, events, s, Arrive(a, Upload(FirstBlob(w))));
    events, s := Then(recovery, events, s, Advance(0));
    events, s := Then(recovery, events, s, Advance(0));
    assert s == Registry({(a, FirstBlob(w))}, map[], map[], recovery, [Uploading(a, w, ReadPointer)]);
    events, s := Then(recovery, events, s, Advance(0));
    events, s := Then(recovery, events, s, Advance(0));
    assert s == Registry({(a, FirstBlob(w))}, map[a := FirstBlob(w)], map[w := a], recovery, [Uploading(a, w, RemoveReplaced(None))]);
    events, s := Then(recovery, events, s, Advance(0));
  }

  // ----- when nothing is left behind -----

  /** No two accounts hold the same recovery wallet. */
  ghost predicate DistinctSecrets(recovery: map<Account, Wallet>) {
    forall a, b :: a in recovery && b in recovery && recovery[a] == recovery[b] ==> a == b
  }

  /** A calm run in which every request has finished. */
  predicate Quiet(recovery: map<Account, Wallet>, events: seq<Event>) {
    Calm(events) && AllFinished(Run(Init(recovery), events))
  }

  predicate AllFinished(s: Registry) {
    forall i :: 0 <= i < |s.requests| ==> s.requests[i].pc.Finished?
  }

  ghost predicate OnlyCurrent(s: Registry) {
    forall a, b :: (a, b) in s.files ==> Current(s, a) == Some(b)
  }

  predicate Unconflicted(s: Registry) {
    forall i :: 0 <= i < |s.requests| ==> s.requests[i].pc != Finished(UserIdTaken)
  }

  /** The request has passed the check of its signer and may still install its upload. */
  predicate Checked(q: Request) {
    q.task.Upload? && (q.pc.ReadPointer? || q.pc.ReadFile? || q.pc.Recheck? || q.pc.Swap?)
  }

  /** What is published, or may still be, is signed by its account's stored wallet. */
  ghost predicate Signed(s: Registry) {
    && (forall a :: a in s.pointer ==> !Foreign(s, a, s.pointer[a]))
    && (forall i :: 0 <= i < |s.requests| && Checked(s.requests[i]) ==> !Foreign(s, s.requests[i].account, s.requests[i].task.blob))
  }

  lemma AdvanceSigned(s: Registry, i: nat, a: Account)
    requires Signed(s) && i < |s.requests|
    ensures Advanced(s, i).recovery == s.recovery
    ensures a in Advanced(s, i).pointer ==> !Foreign(s, a, Advanced(s, i).pointer[a])
    ensures Checked(Advanced(s, i).requests[i]) ==> !Foreign(s, s.requests[i].account, s.requests[i].task.blob)
    ensures Advanced(s, i).requests[i].task == s.requests[i].task
  {
    match s.requests[i].pc
    case Swap(_) =>
    case ReadFile(_) =>
    case Recheck(_) =>
    case _ =>
  }

  lemma SignedStep(s: Registry, e: Event)
    requires Signed(s)
    ensures Signed(Next(s, e))
    ensures forall a :: a in s.recovery ==> a in Next(s, e).recovery && Next(s, e).recovery[a] == s.recovery[a]
  {
    var s' := Next(s, e);
    if e.Advance? && e.request < |s.requests| {
      forall a | a in s'.pointer ensures !Foreign(s', a, s'.pointer[a]) { AdvanceSigned(s, e.request, a); }
      forall j | 0 <= j < |s'.requests| && Checked(s'.requests[j])
        ensures !Foreign(s', s'.requests[j].account, s'.requests[j].task.blob)
      {
        AdvanceSigned(s, e.request, 0);
        OthersKeepTheirPlace(s, e.request, e.request);
        OthersKeepTheirPlace(s, e.request, j);
      }
    }
  }

  /** Distinct secrets leave no user id for two accounts to claim. */
  lemma AdvanceUnconflicted(s: Registry, i: nat)
    requires UsersExact(s) && Signed(s) && DistinctSecrets(s.recovery)
    requires i < |s.requests| && s.requests[i].pc != Finished(UserIdTaken)
    requires forall j :: 0 <= j < |s.requests| && s.requests[j].pc.RemoveOwn? ==> s.requests[j].pc.outcome != UserIdTaken
    ensures Advanced(s, i).requests[i].pc != Finished(UserIdTaken)
    ensures Advanced(s, i).requests[i].pc.RemoveOwn? ==> Advanced(s, i).requests[i].pc.outcome != UserIdTaken
  {
    var q := s.requests[i];
    if q.pc.Swap? && q.task.Upload? {
      var user := UserOf(q.task.blob.record.wallet);
      if user in s.users {
        assert UserAt(s, s.users[user]) == user;
      }
    }
  }

  /** No request is refused for its user id, or about to report that. */
  predicate ConflictFree(s: Registry) {
    Unconflicted(s) && forall j :: 0 <= j < |s.requests| && s.requests[j].pc.RemoveOwn? ==> s.requests[j].pc.outcome != UserIdTaken
  }

  lemma ConflictFreeStep(s: Registry, e: Event)
    requires UsersExact(s) && Signed(s) && DistinctSecrets(s.recovery) && ConflictFree(s)
    ensures ConflictFree(Next(s, e))
  {
    if e.Advance? && e.request < |s.requests| {
      AdvanceUnconflicted(s, e.request);
      forall j | 0 <= j < |s.requests|
        ensures j != e.request ==> Advanced(s, e.request).requests[j] == s.requests[j]
        ensures |Advanced(s, e.request).requests| == |s.requests|
      {
        OthersKeepTheirPlace(s, e.request, j);
      }
    }
  }

  lemma {:induction false} NoConflict(s: Registry, events: seq<Event>)
    requires UsersExact(s) && Signed(s) && ConflictFree(s) && DistinctSecrets(Run(s, events).recovery)
    ensures UsersExact(Run(s, events)) && Signed(Run(s, events)) && ConflictFree(Run(s, events))
    decreases |events|
  {
    if events != [] {
      var n := |events| - 1;
      RunSigned(s, events[..n]);
      SignedStep(Run(s, events[..n]), events[n]);
      NoConflict(s, events[..n]);
      UsersStep(Run(s, events[..n]), events[n]);
      ConflictFreeStep(Run(s, events[..n]), events[n]);
    }
  }

  lemma {:induction false} RunSigned(s: Registry, events: seq<Event>)
    requires Signed(s)
    ensures Signed(Run(s, events))
    decreases |events|
  {
    if events != [] {
      RunSigned(s, events[..|events| - 1]);
      SignedStep(Run(s, events[..|events| - 1]), events[|events| - 1]);
    }
  }

  /** With distinct secrets at the end, whenever they were stored, a run without deaths leaves only current files. */
  lemma DistinctSecretsLeaveNothing(recovery: map<Account, Wallet>, events: seq<Event>)
    requires forall k :: 0 <= k < |events| ==> !events[k].Die?
    requires AllFinished(Run(Init(recovery), events)) && DistinctSecrets(Run(Init(recovery), events).recovery)
    ensures OnlyCurrent(Run(Init(recovery), events))
  {
    NoConflict(Init(recovery), events);
    OnlyCurrentFilesRemain(Init(recovery), events);
  }

  lemma {:induction false} CalmKeepsRecovery(s: Registry, events: seq<Event>)
    requires Calm(events)
    ensures Run(s, events).recovery == s.recovery
    decreases |events|
  {
    if events != [] {
      var n := |events| - 1;
      CalmKeepsRecovery(s, events[..n]);
      var was := Run(s, events[..n]);
      if events[n].Advance? && events[n].request < |was.requests| { RecoveryKept(was, events[n].request); }
    }
  }

  lemma RecoveryKept(s: Registry, i: nat)
    requires i < |s.requests|
    ensures Advanced(s, i).recovery == s.recovery
  {
  }

  ghost predicate LeavesNothing(recovery: map<Account, Wallet>) {
    forall events :: Quiet(recovery, events) ==> OnlyCurrent(Run(Init(recovery), events))
  }

  /** Finished requests always leave only current files exactly when no two accounts hold the same recovery wallet. */
  lemma NothingLeftIff(recovery: map<Account, Wallet>)
    ensures LeavesNothing(recovery) <==> DistinctSecrets(recovery)
  {
    if DistinctSecrets(recovery) {
      forall events | Quiet(recovery, events) ensures OnlyCurrent(Run(Init(recovery), events)) {
        CalmKeepsRecovery(Init(recovery), events);
        DistinctSecretsLeaveNothing(recovery, events);
      }
    } else {
      var a, other :| a in recovery && other in recovery && recovery[a] == recovery[other] && a != other;
      var events := TakenUserIdAbandonsFile(recovery, a, other);
      var s := Run(Init(recovery), events);
      assert (other, FirstBlob(recovery[a])) in s.files && !OnlyCurrent(s);
    }
  }

  // ----- the secret stored during the run -----

  /** Before its secret is stored an account has no uploads, so nothing is published for it. */
  predicate Unpublished(s: Registry, a: Account) {
    && a !in s.pointer && a !in s.recovery
    && forall i :: 0 <= i < |s.requests| && s.requests[i].account == a ==> OnlyReads(s.requests[i])
  }

  predicate OnlyReads(q: Request) {
    && q.task.Read?
    && (q.pc == WriteFile || q.pc == ReadPointer || q.pc == Finished(Loaded(None)) || q.pc == Finished(Died))
  }

  /** Every upload of the account arrives after its secret was stored. */
  ghost predicate StoredBeforeUploads(events: seq<Event>, a: Account) {
    forall j :: 0 <= j < |events| && events[j].Arrive? && events[j].account == a && events[j].task.Upload? ==>
      exists i :: 0 <= i < j && events[i].StoreRecovery? && events[i].account == a
  }

  lemma UnpublishedStep(s: Registry, e: Event, a: Account)
    requires Unpublished(s, a) && !(e.Arrive? && e.account == a && e.task.Upload?)
    ensures if a in Next(s, e).recovery then Inv(Next(s, e), a) else Unpublished(Next(s, e), a)
    ensures a in Next(s, e).recovery <==> e.StoreRecovery? && e.account == a
  {
    if e.Advance? && e.request < |s.requests| {
      RecoveryKept(s, e.request);
      AdvanceUnpublished(s, e.request, a);
      forall j | 0 <= j < |s.requests|
        ensures j != e.request ==> Advanced(s, e.request).requests[j] == s.requests[j]
        ensures |Advanced(s, e.request).requests| == |s.requests|
        ensures Advanced(s, e.request).requests[e.request].account == s.requests[e.request].account
      {
        OthersKeepTheirPlace(s, e.request, e.request);
        OthersKeepTheirPlace(s, e.request, j);
      }
    }
  }

  lemma AdvanceUnpublished(s: Registry, i: nat, a: Account)
    requires Unpublished(s, a) && i < |s.requests|
    ensures a !in Advanced(s, i).pointer
    ensures s.requests[i].account == a ==> OnlyReads(Advanced(s, i).requests[i])
  {
    match s.requests[i].pc
    case Swap(_) =>
    case ReadFile(_) =>
    case _ =>
  }

  /** A stored secret, or no upload at all yet: either way the account is safe. */
  lemma {:induction false} StoredFirstHolds(recovery: map<Account, Wallet>, events: seq<Event>, a: Account)
    requires StoredBeforeUploads(events, a)
    ensures var s := Run(Init(recovery), events);
      && (if a in s.recovery then Inv(s, a) else Unpublished(s, a))
      && ((exists i :: 0 <= i < |events| && events[i].StoreRecovery? && events[i].account == a) ==> a in s.recovery)
    decreases |events|
  {
    if events != [] {
      var n := |events| - 1;
      var was := Run(Init(recovery), events[..n]);
      assert StoredBeforeUploads(events[..n], a) by {
        forall j | 0 <= j < n && events[..n][j].Arrive? && events[..n][j].account == a && events[..n][j].task.Upload?
          ensures exists i :: 0 <= i < j && events[..n][i].StoreRecovery? && events[..n][i].account == a
        {
          assert events[j] == events[..n][j];
          var i :| 0 <= i < j && events[i].StoreRecovery? && events[i].account == a;
          assert events[..n][i] == events[i];
        }
      }
      StoredFirstHolds(recovery, events[..n], a);
      if a in was.recovery {
        NextKeeps(was, a, events[n]);
      } else {
        assert forall i :: 0 <= i < n ==> events[..n][i] == events[i];
        UnpublishedStep(was, events[n], a);
      }
    }
  }

  /** Storing the secret during the run, before the account's first upload arrives, is enough. */
  lemma SafeWhenStoredBeforeUploads(recovery: map<Account, Wallet>, events: seq<Event>, a: Account)
    requires StoredBeforeUploads(events, a) || a in recovery
    ensures !Dangling(Run(Init(recovery), events), a)
  {
    if a in recovery {
      PointerAlwaysResolves(Init(recovery), a, events);
    } else {
      StoredFirstHolds(recovery, events, a);
    }
  }
}
