/**
 Runs of the registry's login and session service. A login request is two store transactions
 (look the login up, store the token) and so is a confirmation (take the token, bind the login),
 with no lock between them. A run interleaves the transactions of any number of requests with
 cleanups; a request that died simply never runs its second one. A time is the one its
 request read when it started.
 */
module RegistryRuns {
  import opened Common
  import opened RegistryTables

  /** What a request holds between its two transactions. */
  datatype Pending =
    | Asked(login: string, account: Option<string>, expiresAt: Time)
    | Verified(hash: string, login: string)

  datatype Registry = Registry(tables: Tables, pending: map<nat, Pending>)

  datatype Op =
    | Lookup(request: nat, login: string, now: Time, ttl: int)
    | Issue(request: nat, hash: string)
    | Take(request: nat, hash: string, now: Time)
    | Bind(request: nat, newId: string)
    | Open(account: string, hash: string, now: Time, ttl: int)
    | Look(hash: string, now: Time)
    | Bump(key: string, now: Time, window: int)
    | Purge(now: Time, due: Due)

  /** What a client observes; both refusals of a login token count as the same refusal. */
  datatype Output =
    | Issued(expiresAt: Option<Time>)
    | LoggedIn(login: Option<AccountLogin>)
    | Account(account: Option<string>)
    | Counted(bucket: Option<Bucket>)
    | Silent

  function Success<T, E>(r: Result<T, E>): Option<T> {
    match r
    case Ok(v) => Some(v)
    case Err(_) => None
  }

  /** A token that names its account completes the confirmation; one that does not leaves its login to be bound. */
  function Taken(r: Registry, k: nat, hash: string, now: Time): (Registry, Output) {
    var (t, taken) := TakeLive(r.tables, hash, now);
    match taken
    case Err(_) => (r.(tables := t), LoggedIn(None))
    case Ok(LoginToken(_, Some(account), _)) => (r.(tables := t), LoggedIn(Some(AccountLogin(account, false))))
    case Ok(LoginToken(login, None, _)) => (Registry(t, r.pending[k := Verified(hash, login)]), Silent)
  }

  function Step(r: Registry, op: Op): (Registry, Output) {
    var t := r.tables;
    match op
    case Lookup(k, login, now, ttl) =>
      if k in r.pending then (r, Silent)
      else if ttl <= 0 then (r, Issued(None))
      else
        var account := if login in t.logins then Some(t.logins[login]) else None;
        (r.(pending := r.pending[k := Asked(login, account, Later(now, ttl))]), Silent)
    case Issue(k, hash) =>
      if k !in r.pending || !r.pending[k].Asked? then (r, Silent)
      else
        var asked := r.pending[k];
        (Registry(PutToken(t, hash, LoginToken(asked.login, asked.account, asked.expiresAt)), r.pending - {k}),
         Issued(Some(asked.expiresAt)))
    case Take(k, hash, now) =>
      if k in r.pending then (r, Silent) else Taken(r, k, hash, now)
    case Bind(k, newId) =>
      if k !in r.pending || !r.pending[k].Verified? then (r, Silent)
      else
        var (t', login) := GetOrCreate(t, r.pending[k].login, newId);
        (Registry(t', r.pending - {k}), LoggedIn(Some(login)))
    case Open(account, hash, now, ttl) =>
      var (t', issued) := CreateSession(t, account, hash, now, ttl);
      (r.(tables := t'), Issued(Success(issued)))
    case Look(hash, now) => (r, Account(AccountForSession(t, hash, now)))
    case Bump(key, now, window) =>
      var (t', bucket) := BumpRate(t, key, now, window);
      (r.(tables := t'), Counted(Success(bucket)))
    case Purge(_, due) => (r.(tables := PurgeRows(t, due)), Silent)
  }

  function After(r: Registry, ops: seq<Op>): Registry
    decreases |ops|
  {
    if ops == [] then r else After(Step(r, ops[0]).0, ops[1..])
  }

  /** The outputs of a run, cleanup excepted. */
  function Outputs(r: Registry, ops: seq<Op>): seq<Output>
    decreases |ops|
  {
    if ops == [] then []
    else
      var (r', out) := Step(r, ops[0]);
      (if ops[0].Purge? then [] else [out]) + Outputs(r', ops[1..])
  }

  function WithoutPurges(ops: seq<Op>): seq<Op> {
    if ops == [] then []
    else (if ops[0].Purge? then [] else [ops[0]]) + WithoutPurges(ops[1..])
  }

  /** Hashes a run draws at random. */
  function Drawn(op: Op): set<string> {
    match op
    case Issue(_, hash) => {hash}
    case Open(_, hash, _, _) => {hash}
    case _ => {}
  }

  /** Random hashes never repeat, and cleanup picks token rows that are there. */
  ghost predicate Plausible(r: Registry, ops: seq<Op>, seen: set<string>)
    decreases |ops|
  {
    ops == [] ||
    (&& Drawn(ops[0]) !! seen
     && (ops[0].Purge? ==> ops[0].due.tokens <= r.tables.tokenRows)
     && Plausible(Step(r, ops[0]).0, ops[1..], seen + Drawn(ops[0])))
  }

  /** The latest time up to which cleanup has run. */
  function Horizon(op: Op, horizon: Time): Time {
    if op.Purge? && op.now > horizon then op.now else horizon
  }

  /** Cleanup picks only due rows, and no request reads an expiry with a time earlier than a cleanup that already ran. */
  ghost predicate Timely(ops: seq<Op>, horizon: Time)
    decreases |ops|
  {
    ops == [] ||
    (&& (ops[0].Take? || ops[0].Look? || ops[0].Bump? ==> horizon <= ops[0].now)
     && (ops[0].Purge? ==>
           forall row :: row in ops[0].due.tokens + ops[0].due.sessions + ops[0].due.rates ==> row.at <= ops[0].now)
     && Timely(ops[1..], Horizon(ops[0], horizon)))
  }

  ghost predicate Known(r: Registry, seen: set<string>) {
    && r.tables.tokens.Keys <= seen && r.tables.sessionIndex.Keys <= seen
    && (forall k :: k in r.pending && r.pending[k].Verified? ==> r.pending[k].hash in seen)
  }

  const EMPTY_TABLES := Tables(map[], {}, map[], map[], map[], map[], {}, map[])

  // ----- agreement in every run -----

  lemma StepAgrees(r: Registry, op: Op, seen: set<string>)
    requires Agree(r.tables) && Known(r, seen) && Drawn(op) !! seen
    requires op.Purge? ==> op.due.tokens <= r.tables.tokenRows
    ensures Agree(Step(r, op).0.tables)
  {
    var t := r.tables;
    match op
    case Issue(k, hash) =>
      if k in r.pending && r.pending[k].Asked? {
        PutTokenAgreesIff(t, hash, LoginToken(r.pending[k].login, r.pending[k].account, r.pending[k].expiresAt));
      }
    case Take(_, hash, _) => TakeTokenAgrees(t, hash);
    case Open(account, hash, now, ttl) =>
      if ttl > 0 { ReplaceSessionAgreesIff(t, Session(account, hash, Later(now, ttl))); }
    case Bump(key, now, window) => BumpRateAgrees(t, key, now, window);
    case Purge(_, due) => PurgeAgrees(t, due);
    case _ =>
  }

  lemma StepKnown(r: Registry, op: Op, seen: set<string>)
    requires Known(r, seen)
    ensures Known(Step(r, op).0, seen + Drawn(op))
  {
    var t, t' := r.tables, Step(r, op).0.tables;
    assert t'.tokens.Keys <= t.tokens.Keys + Drawn(op);
    assert t'.sessionIndex.Keys <= t.sessionIndex.Keys + Drawn(op);
  }

  /** Every state of every run keeps sessions, reverse index, expiry rows, tokens and buckets in one-to-one agreement. */
  lemma {:induction false} RunAgrees(r: Registry, ops: seq<Op>, seen: set<string>)
    requires Agree(r.tables) && Known(r, seen) && Plausible(r, ops, seen)
    ensures Agree(After(r, ops).tables)
    decreases |ops|
  {
    if ops != [] {
      StepAgrees(r, ops[0], seen);
      StepKnown(r, ops[0], seen);
      RunAgrees(Step(r, ops[0]).0, ops[1..], seen + Drawn(ops[0]));
    }
  }

  /** Starting from nothing, an account never has two usable session tokens, at whatever times they are asked for. */
  lemma OneUsableTokenEver(ops: seq<Op>, h: string, h': string, now: Time, now': Time)
    requires Plausible(Registry(EMPTY_TABLES, map[]), ops, {})
    ensures var t := After(Registry(EMPTY_TABLES, map[]), ops).tables;
      AccountForSession(t, h, now).Some? && AccountForSession(t, h, now) == AccountForSession(t, h', now') ==> h == h'
  {
    RunAgrees(Registry(EMPTY_TABLES, map[]), ops, {});
    var t := After(Registry(EMPTY_TABLES, map[]), ops).tables;
    if AccountForSession(t, h, now).Some? && AccountForSession(t, h, now) == AccountForSession(t, h', now') {
      OneUsableTokenPerAccount(t, h, h', now, now');
    }
  }

  /** The same from a database just given its expiry tables, when its reverse index of sessions was exact. */
  lemma OneUsableTokenAfterBackfill(t: Tables, ops: seq<Op>, h: string, h': string, now: Time, now': Time)
    requires TokensAgree(t) && SessionRowsAgree(t) && RatesAgree(t) && IndexAgrees(t)
    requires Plausible(Registry(t, map[]), ops, t.tokens.Keys + t.sessionIndex.Keys)
    ensures var t' := After(Registry(t, map[]), ops).tables;
      AccountForSession(t', h, now).Some? && AccountForSession(t', h, now) == AccountForSession(t', h', now') ==> h == h'
  {
    RunAgrees(Registry(t, map[]), ops, t.tokens.Keys + t.sessionIndex.Keys);
    var t' := After(Registry(t, map[]), ops).tables;
    if AccountForSession(t', h, now).Some? && AccountForSession(t', h, now) == AccountForSession(t', h', now') {
      OneUsableTokenPerAccount(t', h, h', now, now');
    }
  }

  // ----- invisibility of cleanup -----

  ghost predicate Same(r: Registry, s: Registry, horizon: Time) {
    r.pending == s.pending && SameLive(r.tables, s.tables, horizon)
  }

  lemma SameTake(t: Tables, u: Tables, hash: string, now: Time, horizon: Time)
    requires SameLive(t, u, horizon) && horizon <= now
    ensures Success(TakeLive(t, hash, now).1) == Success(TakeLive(u, hash, now).1)
    ensures SameLive(TakeLive(t, hash, now).0, TakeLive(u, hash, now).0, horizon)
  {
    assert LiveToken(t, hash, now) == LiveToken(u, hash, now);
    TakeMeans(t, hash, now);
    TakeMeans(u, hash, now);
  }

  function LiveToken(t: Tables, hash: string, now: Time): Option<LoginToken> {
    if hash in t.tokens && t.tokens[hash].expiresAt > now then Some(t.tokens[hash]) else None
  }

  /** Taking is decided by the unexpired token of the hash; it always spends the token and touches nothing else. */
  lemma TakeMeans(t: Tables, hash: string, now: Time)
    ensures var (t', taken) := TakeLive(t, hash, now);
      && Success(taken) == LiveToken(t, hash, now)
      && t'.tokens == t.tokens - {hash}
      && t'.sessions == t.sessions && t'.rates == t.rates && t'.sessionIndex == t.sessionIndex && t'.logins == t.logins
  {
  }

  lemma SamePut(t: Tables, u: Tables, hash: string, token: LoginToken, horizon: Time)
    requires SameLive(t, u, horizon)
    ensures SameLive(PutToken(t, hash, token), PutToken(u, hash, token), horizon)
  {
  }

  lemma SameOpen(t: Tables, u: Tables, account: string, hash: string, now: Time, ttl: int, horizon: Time)
    requires SameLive(t, u, horizon)
    ensures CreateSession(t, account, hash, now, ttl).1 == CreateSession(u, account, hash, now, ttl).1
    ensures SameLive(CreateSession(t, account, hash, now, ttl).0, CreateSession(u, account, hash, now, ttl).0, horizon)
  {
    if ttl > 0 {
      var s := Session(account, hash, Later(now, ttl));
      assert ReplaceSession(t, s).sessions == t.sessions[account := s];
      assert ReplaceSession(u, s).sessions == u.sessions[account := s];
    }
  }

  lemma SameLookup(t: Tables, u: Tables, hash: string, now: Time, horizon: Time)
    requires Agree(t) && Agree(u) && SameLive(t, u, horizon) && horizon <= now
    ensures AccountForSession(t, hash, now) == AccountForSession(u, hash, now)
  {
  }

  lemma SameBump(t: Tables, u: Tables, key: string, now: Time, window: int, horizon: Time)
    requires SameLive(t, u, horizon) && horizon <= now
    ensures BumpRate(t, key, now, window).1 == BumpRate(u, key, now, window).1
    ensures SameLive(BumpRate(t, key, now, window).0, BumpRate(u, key, now, window).0, horizon)
  {
    assert SameRates(BumpRate(t, key, now, window).0, BumpRate(u, key, now, window).0, horizon);
  }

  lemma SameTaken(r: Registry, s: Registry, k: nat, hash: string, now: Time, horizon: Time)
    requires Same(r, s, horizon) && horizon <= now
    ensures Taken(r, k, hash, now).1 == Taken(s, k, hash, now).1
    ensures Same(Taken(r, k, hash, now).0, Taken(s, k, hash, now).0, horizon)
  {
    SameTake(r.tables, s.tables, hash, now, horizon);
  }

  lemma SameBind(r: Registry, s: Registry, login: string, newId: string, horizon: Time)
    requires Same(r, s, horizon)
    ensures var (t, account), (u, account') := GetOrCreate(r.tables, login, newId), GetOrCreate(s.tables, login, newId);
      account == account' && SameLive(t, u, horizon)
  {
  }

  /** A transaction other than cleanup gives the same output on both registries and keeps their live parts the same. */
  lemma SameStep(r: Registry, s: Registry, op: Op, horizon: Time)
    requires Agree(r.tables) && Agree(s.tables) && Same(r, s, horizon) && !op.Purge?
    requires op.Take? || op.Look? || op.Bump? ==> horizon <= op.now
    ensures Step(r, op).1 == Step(s, op).1
    ensures Same(Step(r, op).0, Step(s, op).0, horizon)
  {
    var t, u := r.tables, s.tables;
    match op
    case Issue(k, hash) =>
      if k in r.pending && r.pending[k].Asked? {
        SamePut(t, u, hash, LoginToken(r.pending[k].login, r.pending[k].account, r.pending[k].expiresAt), horizon);
      }
    case Take(k, hash, now) => SameTaken(r, s, k, hash, now, horizon);
    case Bind(k, newId) => if k in r.pending && r.pending[k].Verified? { SameBind(r, s, r.pending[k].login, newId, horizon); }
    case Open(account, hash, now, ttl) => SameOpen(t, u, account, hash, now, ttl, horizon);
    case Look(hash, now) => SameLookup(t, u, hash, now, horizon);
    case Bump(key, now, window) => SameBump(t, u, key, now, window, horizon);
    case _ =>
  }

  lemma {:induction false} PurgesAreInvisibleFrom(r: Registry, s: Registry, ops: seq<Op>, seen: set<string>, horizon: Time)
    requires Agree(r.tables) && Agree(s.tables) && Known(r, seen) && Known(s, seen)
    requires Same(r, s, horizon) && Plausible(r, ops, seen) && Timely(ops, horizon)
    ensures Outputs(r, ops) == Outputs(s, WithoutPurges(ops))
    decreases |ops|
  {
    if ops != [] {
      var op := ops[0];
      var r', later := Step(r, op).0, Horizon(op, horizon);
      StepAgrees(r, op, seen);
      StepKnown(r, op, seen);
      if op.Purge? {
        PurgeKeepsLive(r.tables, op.due, later);
        SameLiveComposes(r'.tables, r.tables, s.tables, horizon, later);
        assert Known(s, seen + Drawn(op));
        PurgesAreInvisibleFrom(r', s, ops[1..], seen + Drawn(op), later);
        assert WithoutPurges(ops) == WithoutPurges(ops[1..]);
      } else {
        SameStep(r, s, op, horizon);
        StepAgrees(s, op, seen);
        StepKnown(s, op, seen);
        PurgesAreInvisibleFrom(r', Step(s, op).0, ops[1..], seen + Drawn(op), later);
        assert WithoutPurges(ops) == [op] + WithoutPurges(ops[1..]);
        assert WithoutPurges(ops)[1..] == WithoutPurges(ops[1..]);
      }
    }
  }

  /** Inserting any cleanups anywhere between transactions changes no login, session lookup or rate count. */
  lemma PurgesAreInvisible(r: Registry, ops: seq<Op>, seen: set<string>, horizon: Time)
    requires Agree(r.tables) && Known(r, seen) && Plausible(r, ops, seen) && Timely(ops, horizon)
    ensures Outputs(r, ops) == Outputs(r, WithoutPurges(ops))
  {
    PurgesAreInvisibleFrom(r, r, ops, seen, horizon);
  }

  /** A cleanup that overtakes a confirmation shows exactly when it took a token unexpired at the confirmation's time. */
  lemma OvertakenTakeIff(t: Tables, due: Due, hash: string, now: Time)
    requires Agree(t) && due.tokens <= t.tokenRows
    ensures Success(TakeLive(PurgeRows(t, due), hash, now).1) == Success(TakeLive(t, hash, now).1) <==>
            !(hash in t.tokens && t.tokens[hash].expiresAt > now && Row(t.tokens[hash].expiresAt, hash) in due.tokens)
  {
    PurgeAgrees(t, due);
    var t' := PurgeRows(t, due);
    if hash in t.tokens && Row(t.tokens[hash].expiresAt, hash) in due.tokens {
      assert Row(t.tokens[hash].expiresAt, hash).subject == hash;
      assert hash !in t'.tokens;
    }
  }

  /** The same for a session lookup. */
  lemma OvertakenLookIff(t: Tables, due: Due, hash: string, now: Time)
    requires Agree(t)
    ensures AccountForSession(PurgeRows(t, due), hash, now) == AccountForSession(t, hash, now) <==>
            !(AccountForSession(t, hash, now).Some?
              && Row(FindSession(t, hash).value.expiresAt, FindSession(t, hash).value.account) in due.sessions)
  {
  }

  /** A stored bucket has counted at least the request that opened it. */
  predicate CountsRequests(t: Tables) {
    forall k :: k in t.rates ==> t.rates[k].count >= 1
  }

  lemma {:induction false} RunCountsRequests(r: Registry, ops: seq<Op>)
    requires CountsRequests(r.tables)
    ensures CountsRequests(After(r, ops).tables)
    decreases |ops|
  {
    if ops != [] {
      StepCountsRequests(r, ops[0]);
      RunCountsRequests(Step(r, ops[0]).0, ops[1..]);
    }
  }

  lemma StepCountsRequests(r: Registry, op: Op)
    requires CountsRequests(r.tables)
    ensures CountsRequests(Step(r, op).0.tables)
  {
  }

  /** The same for a rate count: a cleanup shows exactly when it took a bucket unexpired at the request's time. */
  lemma OvertakenBumpIff(t: Tables, due: Due, key: string, now: Time, window: int)
    requires Agree(t) && CountsRequests(t) && key != "" && window > 0
    ensures BumpRate(PurgeRows(t, due), key, now, window).1 == BumpRate(t, key, now, window).1 <==>
            !(key in t.rates && t.rates[key].expiresAt > now && Row(t.rates[key].expiresAt, key) in due.rates)
  {
  }

  /** A request stores a token of its own login, with the account bound then, good until its time to live has passed. */
  lemma RequestIssues(r: Registry, k: nat, login: string, now: Time, ttl: int, hash: string)
    requires k !in r.pending && ttl > 0
    ensures var (asked, out) := Step(r, Lookup(k, login, now, ttl));
      var (issued, out') := Step(asked, Issue(k, hash));
      var expiry: Time := if now + ttl <= I64_MAX then now + ttl else I64_MAX;
      && out == Silent && out' == Issued(Some(expiry)) && expiry == Later(now, ttl)
      && k !in issued.pending && hash in issued.tables.tokens && Row(expiry, hash) in issued.tables.tokenRows
      && issued.tables.tokens[hash] == LoginToken(login, if login in r.tables.logins then Some(r.tables.logins[login]) else None, expiry)
      && issued.tables.logins == r.tables.logins && issued.pending == r.pending
  {
  }

  lemma NonPositiveTtlIsRefused(r: Registry, k: nat, login: string, now: Time, ttl: int)
    requires k !in r.pending && ttl <= 0
    ensures Step(r, Lookup(k, login, now, ttl)) == (r, Issued(None))
  {
  }

  /**
   A login without mishap: a token requested for a login and confirmed before it expires gives that
   login's account, binding the new account exactly when the login had none.
   */
  lemma LoginExchange(r: Registry, k: nat, login: string, requested: Time, ttl: int, hash: string, confirmed: Time, newId: string)
    requires k !in r.pending && ttl > 0 && confirmed < requested + ttl && confirmed < I64_MAX
    ensures var issued := Step(Step(r, Lookup(k, login, requested, ttl)).0, Issue(k, hash)).0;
      var (taken, out) := Step(issued, Take(k, hash, confirmed));
      var (bound, out') := Step(taken, Bind(k, newId));
      if login in r.tables.logins then
        out == LoggedIn(Some(AccountLogin(r.tables.logins[login], false))) && taken.tables.logins == r.tables.logins
      else
        && out == Silent && out' == LoggedIn(Some(AccountLogin(newId, true)))
        && bound.tables.logins == r.tables.logins[login := newId] && k !in bound.pending
  {
    RequestIssues(r, k, login, requested, ttl, hash);
    var issued := Step(Step(r, Lookup(k, login, requested, ttl)).0, Issue(k, hash)).0;
    TakeMeans(issued.tables, hash, confirmed);
  }

  /**
   A whole run that shows it: a token is requested, a cleanup at a later clock takes its row, and a
   confirmation whose time was read before the token expired is refused; without the cleanup it is not.
   */
  lemma OvertakenRunDiffers(r: Registry, k: nat, login: string, ttl: int, hash: string, requested: Time, confirmed: Time, cleaned: Time)
    requires k !in r.pending && ttl > 0 && Later(requested, ttl) <= cleaned && confirmed < Later(requested, ttl)
    ensures var expiry := Later(requested, ttl);
      var ops := [Lookup(k, login, requested, ttl), Issue(k, hash)]
                 + [Purge(cleaned, Due({Row(expiry, hash)}, {}, {})), Take(k, hash, confirmed)];
      && Outputs(r, ops) == [Silent, Issued(Some(expiry))] + [LoggedIn(None)]
      && Outputs(r, WithoutPurges(ops)) ==
         [Silent, Issued(Some(expiry))]
         + [if login in r.tables.logins then LoggedIn(Some(AccountLogin(r.tables.logins[login], false))) else Silent]
  {
    var expiry := Later(requested, ttl);
    var lookup, issue, take := Lookup(k, login, requested, ttl), Issue(k, hash), Take(k, hash, confirmed);
    var purge := Purge(cleaned, Due({Row(expiry, hash)}, {}, {}));
    var issued := Step(Step(r, lookup).0, issue).0;
    RequestIssues(r, k, login, requested, ttl, hash);
    OvertakenTake(issued, k, hash, confirmed, purge);
    TwoThen(r, lookup, issue, [purge, take]);
    TwoThen(r, lookup, issue, [take]);
  }

  /** That run is one the theorems speak of but for its clock: its hash is new and its cleanup takes a row that is there and due. */
  lemma OvertakenRunIsPlausible(r: Registry, k: nat, login: string, ttl: int, hash: string, requested: Time, confirmed: Time, cleaned: Time,
                                seen: set<string>)
    requires k !in r.pending && ttl > 0 && hash !in seen
    ensures var ops := [Lookup(k, login, requested, ttl), Issue(k, hash)]
                       + [Purge(cleaned, Due({Row(Later(requested, ttl), hash)}, {}, {})), Take(k, hash, confirmed)];
      Plausible(r, ops, seen)
  {
    var lookup, issue, take := Lookup(k, login, requested, ttl), Issue(k, hash), Take(k, hash, confirmed);
    var purge := Purge(cleaned, Due({Row(Later(requested, ttl), hash)}, {}, {}));
    var asked := Step(r, lookup).0;
    var issued := Step(asked, issue).0;
    RequestIssues(r, k, login, requested, ttl, hash);
    OnePlausible(Step(issued, purge).0, take, [], seen + {} + {hash} + {});
    OnePlausible(issued, purge, [take], seen + {} + {hash});
    OnePlausible(asked, issue, [purge, take], seen + {});
    OnePlausible(r, lookup, [issue] + [purge, take], seen);
    assert [take] + [] == [take] && [purge] + [take] == [purge, take];
    assert [lookup] + ([issue] + [purge, take]) == [lookup, issue] + [purge, take];
  }

  lemma OnePlausible(r: Registry, op: Op, rest: seq<Op>, seen: set<string>)
    requires Drawn(op) !! seen && (op.Purge? ==> op.due.tokens <= r.tables.tokenRows)
    requires rest == [] || Plausible(Step(r, op).0, rest, seen + Drawn(op))
    ensures Plausible(r, [op] + rest, seen)
  {
    assert ([op] + rest)[0] == op && ([op] + rest)[1..] == rest;
  }

  lemma OneThen(r: Registry, op: Op, rest: seq<Op>)
    requires !op.Purge?
    ensures Outputs(r, [op] + rest) == [Step(r, op).1] + Outputs(Step(r, op).0, rest)
    ensures WithoutPurges([op] + rest) == [op] + WithoutPurges(rest)
  {
    var ops := [op] + rest;
    assert ops[0] == op && ops[1..] == rest;
  }

  lemma TwoThen(r: Registry, op: Op, op': Op, rest: seq<Op>)
    requires !op.Purge? && !op'.Purge?
    ensures var (r1, out) := Step(r, op);
      var (r2, out') := Step(r1, op');
      Outputs(r, [op, op'] + rest) == [out, out'] + Outputs(r2, rest)
    ensures WithoutPurges([op, op'] + rest) == [op, op'] + WithoutPurges(rest)
  {
    OneThen(r, op, [op'] + rest);
    OneThen(Step(r, op).0, op', rest);
    assert [op, op'] + rest == [op] + ([op'] + rest);
  }

  lemma OvertakenTake(r: Registry, k: nat, hash: string, now: Time, purge: Op)
    requires purge.Purge? && k !in r.pending && hash in r.tables.tokens && now < r.tables.tokens[hash].expiresAt
    requires Row(r.tables.tokens[hash].expiresAt, hash) in purge.due.tokens
    ensures Outputs(r, [purge, Take(k, hash, now)]) == [LoggedIn(None)]
    ensures WithoutPurges([purge, Take(k, hash, now)]) == [Take(k, hash, now)]
    ensures Outputs(r, [Take(k, hash, now)]) ==
            [match r.tables.tokens[hash].account
             case Some(account) => LoggedIn(Some(AccountLogin(account, false)))
             case None => Silent]
  {
    var take := Take(k, hash, now);
    assert WithoutPurges([purge, take]) == [take] by {
      assert [purge, take][1..] == [take] && [take][1..] == [] && WithoutPurges([take]) == [take];
    }
    assert Row(r.tables.tokens[hash].expiresAt, hash).subject == hash;
    assert [purge, take][1..] == [take] && [take][1..] == [];
    assert Outputs(r, [purge, take]) == Outputs(Step(r, purge).0, [take]);
  }

  // ----- logins over whole runs -----

  /** A token or request that already names an account names the one its login is bound to. */
  ghost predicate LoginsOk(r: Registry) {
    && (forall h :: h in r.tables.tokens && r.tables.tokens[h].account.Some? ==>
          Bound(r, r.tables.tokens[h].login, r.tables.tokens[h].account.value))
    && (forall k :: k in r.pending && r.pending[k].Asked? && r.pending[k].account.Some? ==>
          Bound(r, r.pending[k].login, r.pending[k].account.value))
  }

  predicate Bound(r: Registry, login: string, account: string) {
    login in r.tables.logins && r.tables.logins[login] == account
  }

  /** A token taken by a confirmation that has not bound its login yet is gone from the tables, and is only that one's. */
  ghost predicate TakenOnce(r: Registry) {
    && (forall k :: k in r.pending && r.pending[k].Verified? ==> r.pending[k].hash !in r.tables.tokens)
    && (forall k, l :: k in r.pending && l in r.pending && k != l && r.pending[k].Verified? && r.pending[l].Verified? ==>
          r.pending[k].hash != r.pending[l].hash)
  }

  datatype Confirmation = Confirmation(hash: string, login: string, account: string, created: bool)

  /** The confirmation that this transaction completes, if any. */
  function Confirmed(r: Registry, op: Op): seq<Confirmation> {
    match op
    case Take(k, hash, now) =>
      if k !in r.pending && hash in r.tables.tokens && Step(r, op).1 != Silent && Step(r, op).1.login.Some? then
        var login := Step(r, op).1.login.value;
        [Confirmation(hash, r.tables.tokens[hash].login, login.account, login.created)]
      else []
    case Bind(k, _) =>
      if k in r.pending && r.pending[k].Verified? then
        var login := Step(r, op).1.login.value;
        [Confirmation(r.pending[k].hash, r.pending[k].login, login.account, login.created)]
      else []
    case _ => []
  }

  /** The successful confirmations of a run, in the order they complete. */
  function Confirmations(r: Registry, ops: seq<Op>): seq<Confirmation>
    decreases |ops|
  {
    if ops == [] then [] else Confirmed(r, ops[0]) + Confirmations(Step(r, ops[0]).0, ops[1..])
  }

  /** Bindings of logins to accounts are only ever added. */
  ghost predicate LoginsGrow(r: Registry, s: Registry) {
    forall l :: l in r.tables.logins ==> Bound(s, l, r.tables.logins[l])
  }

  /** Hashes that can still be confirmed: stored, taken but not bound yet, or not drawn yet. */
  ghost predicate Spendable(r: Registry, seen: set<string>, hash: string) {
    || hash in r.tables.tokens || hash !in seen
    || exists k :: k in r.pending && r.pending[k].Verified? && r.pending[k].hash == hash
  }

  ghost predicate LoginInv(r: Registry, seen: set<string>) {
    LoginsOk(r) && TakenOnce(r) && Known(r, seen)
  }

  lemma LoginsGrowStep(r: Registry, op: Op)
    ensures LoginsGrow(r, Step(r, op).0)
  {
    if op.Take? { TakeMeans(r.tables, op.hash, op.now); }
  }

  lemma LoginsOkStep(r: Registry, op: Op)
    requires LoginsOk(r)
    ensures LoginsOk(Step(r, op).0)
  {
    LoginsGrowStep(r, op);
    if op.Take? { TakeMeans(r.tables, op.hash, op.now); }
  }

  lemma TakenOnceStep(r: Registry, op: Op, seen: set<string>)
    requires TakenOnce(r) && Known(r, seen) && Drawn(op) !! seen
    ensures TakenOnce(Step(r, op).0)
  {
    if op.Take? { TakeMeans(r.tables, op.hash, op.now); }
  }

  lemma LoginInvStep(r: Registry, op: Op, seen: set<string>)
    requires LoginInv(r, seen) && Drawn(op) !! seen
    ensures LoginInv(Step(r, op).0, seen + Drawn(op))
    ensures LoginsGrow(r, Step(r, op).0)
  {
    StepKnown(r, op, seen);
    LoginsGrowStep(r, op);
    LoginsOkStep(r, op);
    TakenOnceStep(r, op, seen);
  }

  lemma SpendableStep(r: Registry, op: Op, seen: set<string>, h: string)
    requires LoginInv(r, seen) && Drawn(op) !! seen
    requires Spendable(Step(r, op).0, seen + Drawn(op), h)
    ensures Spendable(r, seen, h)
  {
    if op.Take? { TakeMeans(r.tables, op.hash, op.now); }
  }

  /** A completed confirmation returns the binding, reports a creation exactly when it made it, and spends its hash. */
  lemma ConfirmedStep(r: Registry, op: Op, seen: set<string>)
    requires LoginInv(r, seen) && Drawn(op) !! seen
    ensures var r' := Step(r, op).0;
      forall c | c in Confirmed(r, op) ::
        && Bound(r', c.login, c.account)
        && (c.created <==> c.login !in r.tables.logins)
        && r'.tables.logins.Keys == r.tables.logins.Keys + {c.login}
        && Spendable(r, seen, c.hash) && !Spendable(r', seen + Drawn(op), c.hash)
    ensures Confirmed(r, op) == [] ==> Step(r, op).0.tables.logins == r.tables.logins
  {
    if op.Take? { TakeMeans(r.tables, op.hash, op.now); }
  }

  ghost predicate FirstOfLogin(cs: seq<Confirmation>, i: nat)
    requires i < |cs|
  {
    forall j :: 0 <= j < i ==> cs[j].login != cs[i].login
  }

  /** What a confirmation says: the account is the one finally bound, and `created` marks the first of an unbound login. */
  ghost predicate ConfirmationOk(r: Registry, final: Registry, seen: set<string>, cs: seq<Confirmation>, i: nat)
    requires i < |cs|
  {
    && Bound(final, cs[i].login, cs[i].account)
    && (cs[i].created <==> cs[i].login !in r.tables.logins && FirstOfLogin(cs, i))
    && (forall j :: 0 <= j < i ==> cs[j].hash != cs[i].hash)
    && Spendable(r, seen, cs[i].hash)
  }

  lemma PrependOk(r: Registry, r': Registry, final: Registry, seen: set<string>, seen': set<string>,
                  c: Confirmation, rest: seq<Confirmation>, i: nat)
    requires LoginsGrow(r', final) && r'.tables.logins.Keys == r.tables.logins.Keys + {c.login}
    requires Bound(r', c.login, c.account) && (c.created <==> c.login !in r.tables.logins)
    requires Spendable(r, seen, c.hash) && !Spendable(r', seen', c.hash)
    requires forall h :: Spendable(r', seen', h) ==> Spendable(r, seen, h)
    requires i <= |rest| && (i > 0 ==> ConfirmationOk(r', final, seen', rest, i - 1))
    ensures ConfirmationOk(r, final, seen, [c] + rest, i)
  {
    var cs := [c] + rest;
    if i > 0 {
      assert forall j :: 0 < j <= |rest| ==> cs[j] == rest[j - 1];
      if FirstOfLogin(cs, i) {
        assert c.login == cs[0].login != cs[i].login;
        forall j | 0 <= j < i - 1 ensures rest[j].login != rest[i - 1].login {
          assert cs[j + 1] == rest[j];
        }
      }
      assert FirstOfLogin(cs, i) <==> c.login != cs[i].login && FirstOfLogin(rest, i - 1);
    }
  }

  lemma SkipOk(r: Registry, r': Registry, final: Registry, seen: set<string>, seen': set<string>, cs: seq<Confirmation>, i: nat)
    requires r'.tables.logins == r.tables.logins
    requires forall h :: Spendable(r', seen', h) ==> Spendable(r, seen, h)
    requires i < |cs| && ConfirmationOk(r', final, seen', cs, i)
    ensures ConfirmationOk(r, final, seen, cs, i)
  {
  }

  /**
   In every interleaving of requests and confirmations: every successful confirmation of a login
   returns the account the login ends up bound to; the first to complete for an unbound login, and
   only that one, reports a creation; no hash succeeds twice.
   */
  lemma {:induction false} ConfirmationsAreConsistent(r: Registry, ops: seq<Op>, seen: set<string>)
    requires LoginInv(r, seen) && Plausible(r, ops, seen)
    ensures LoginsGrow(r, After(r, ops))
    ensures forall i :: 0 <= i < |Confirmations(r, ops)| ==>
              ConfirmationOk(r, After(r, ops), seen, Confirmations(r, ops), i)
    decreases |ops|
  {
    if ops != [] {
      var op := ops[0];
      var r', seen', final := Step(r, op).0, seen + Drawn(op), After(r, ops);
      LoginInvStep(r, op, seen);
      ConfirmedStep(r, op, seen);
      forall h | Spendable(r', seen', h) ensures Spendable(r, seen, h) { SpendableStep(r, op, seen, h); }
      ConfirmationsAreConsistent(r', ops[1..], seen');
      var head, rest := Confirmed(r, op), Confirmations(r', ops[1..]);
      if head == [] {
        assert Confirmations(r, ops) == rest;
        forall i | 0 <= i < |rest| ensures ConfirmationOk(r, final, seen, rest, i) {
          SkipOk(r, r', final, seen, seen', rest, i);
        }
      } else {
        assert head == [head[0]] && head[0] in head;
        forall i | 0 <= i <= |rest| ensures ConfirmationOk(r, final, seen, [head[0]] + rest, i) {
          PrependOk(r, r', final, seen, seen', head[0], rest, i);
        }
      }
    }
  }

  /** A login bound during a run was bound by exactly one confirmation, and that one reported the creation. */
  lemma {:induction false} EveryBindingIsReported(r: Registry, ops: seq<Op>, seen: set<string>, login: string)
    requires LoginInv(r, seen) && Plausible(r, ops, seen)
    requires login !in r.tables.logins && login in After(r, ops).tables.logins
    ensures exists c :: c in Confirmations(r, ops) && c.login == login && c.created
    decreases |ops|
  {
    var op := ops[0];
    var r' := Step(r, op).0;
    LoginInvStep(r, op, seen);
    ConfirmedStep(r, op, seen);
    if login in r'.tables.logins {
      assert Confirmed(r, op) != [];
      var c := Confirmed(r, op)[0];
      assert c in Confirmed(r, op);
      assert c in Confirmations(r, ops) && c.login == login && c.created;
    } else {
      EveryBindingIsReported(r', ops[1..], seen + Drawn(op), login);
      var c :| c in Confirmations(r', ops[1..]) && c.login == login && c.created;
      assert c in Confirmations(r, ops);
    }
  }

  /** The race the binding transaction decides: two tokens of one unbound login taken before either is bound. */
  lemma RacingConfirmations(r: Registry, h: string, h': string, k: nat, k': nat, now: Time, id: string, id': string)
    requires h != h' && k != k' && k !in r.pending && k' !in r.pending
    requires LiveToken(r.tables, h, now).Some? && LiveToken(r.tables, h', now).Some?
    requires r.tables.tokens[h].account.None? && r.tables.tokens[h'].account.None?
    requires r.tables.tokens[h].login == r.tables.tokens[h'].login && r.tables.tokens[h].login !in r.tables.logins
    ensures Outputs(r, [Take(k, h, now), Take(k', h', now), Bind(k', id'), Bind(k, id)])
         == [Silent, Silent, LoggedIn(Some(AccountLogin(id', true))), LoggedIn(Some(AccountLogin(id', false)))]
  {
    var ops := [Take(k, h, now), Take(k', h', now), Bind(k', id'), Bind(k, id)];
    assert ops[1..] == [Take(k', h', now), Bind(k', id'), Bind(k, id)];
    assert ops[2..] == [Bind(k', id'), Bind(k, id)] && ops[3..] == [Bind(k, id)] && ops[4..] == [];
    assert ops[1..][1..] == ops[2..] && ops[2..][1..] == ops[3..] && ops[3..][1..] == ops[4..];
    var (r1, o1) := Step(r, ops[0]);
    var (r2, o2) := Step(r1, ops[1]);
    var (r3, o3) := Step(r2, ops[2]);
    var (r4, o4) := Step(r3, ops[3]);
    assert Outputs(r, ops) == [o1] + Outputs(r1, ops[1..]) && Outputs(r1, ops[1..]) == [o2] + Outputs(r2, ops[2..]);
    assert Outputs(r2, ops[2..]) == [o3] + Outputs(r3, ops[3..]);
    assert Outputs(r3, ops[3..]) == [o4] + Outputs(r4, ops[4..]) == [o4];
    assert o1 == Silent && o2 == Silent;
  }
}
