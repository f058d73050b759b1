/**
 Registry metadata: one-time login tokens, one session per account with a reverse index,
 rate buckets, and one expiry table for each. An expiry row stands for its text key
 (`ExpiryKeys`); cleanup scans rows in text order. Each store method is one transaction.
 */
module RegistryTables {
  import opened Common

  type Time = t: nat | t <= I64_MAX

  datatype LoginToken = LoginToken(login: string, account: Option<string>, expiresAt: Time)
  datatype Session = Session(account: string, tokenHash: string, expiresAt: Time)
  datatype Bucket = Bucket(count: nat, expiresAt: Time)
  datatype AccountLogin = AccountLogin(account: string, created: bool)
  datatype Row = Row(at: Time, subject: string)

  datatype Error = InvalidInput | InvalidToken | ExpiredToken | InvalidBucket

  datatype Tables = Tables(
    tokens: map<string, LoginToken>,
    tokenRows: set<Row>,
    sessions: map<string, Session>,
    sessionIndex: map<string, string>,
    sessionRows: map<Row, string>,
    rates: map<string, Bucket>,
    rateRows: set<Row>,
    logins: map<string, string>)

  function Later(now: Time, ttl: int): Time
    requires ttl > 0
  {
    SatAdd(now, ttl, I64_MAX)
  }

  // ----- store operations -----

  function PutToken(t: Tables, hash: string, token: LoginToken): Tables {
    t.(tokens := t.tokens[hash := token], tokenRows := t.tokenRows + {Row(token.expiresAt, hash)})
  }

  function TakeToken(t: Tables, hash: string): (Tables, Option<LoginToken>) {
    if hash !in t.tokens then (t, None)
    else
      var token := t.tokens[hash];
      (t.(tokens := t.tokens - {hash}, tokenRows := t.tokenRows - {Row(token.expiresAt, hash)}), Some(token))
  }

  function GetOrCreate(t: Tables, login: string, newId: string): (Tables, AccountLogin) {
    if login in t.logins then (t, AccountLogin(t.logins[login], false))
    else (t.(logins := t.logins[login := newId]), AccountLogin(newId, true))
  }

  function ReplaceSession(t: Tables, s: Session): Tables {
    var previous := if s.account in t.sessions then Some(t.sessions[s.account]) else None;
    var index := if previous.Some? then t.sessionIndex - {previous.value.tokenHash} else t.sessionIndex;
    var rows := if previous.Some? then t.sessionRows - {Row(previous.value.expiresAt, s.account)} else t.sessionRows;
    t.(sessions := t.sessions[s.account := s],
       sessionIndex := index[s.tokenHash := s.account],
       sessionRows := rows[Row(s.expiresAt, s.account) := s.tokenHash])
  }

  function FindSession(t: Tables, hash: string): Option<Session> {
    if hash !in t.sessionIndex then None
    else if t.sessionIndex[hash] !in t.sessions then None
    else
      var s := t.sessions[t.sessionIndex[hash]];
      if s.tokenHash != hash then None else Some(s)
  }

  function NextBucket(t: Tables, key: string, now: Time, window: int): Bucket
    requires window > 0
  {
    if key in t.rates && t.rates[key].expiresAt > now
    then t.rates[key].(count := SatAdd(t.rates[key].count, 1, U64_MAX))
    else Bucket(1, Later(now, window))
  }

  function BumpRate(t: Tables, key: string, now: Time, window: int): (Tables, Result<Bucket, Error>) {
    if key == "" || window <= 0 then (t, Err(InvalidBucket))
    else
      var next := NextBucket(t, key, now, window);
      var rows := if key in t.rates then t.rateRows - {Row(t.rates[key].expiresAt, key)} else t.rateRows;
      (t.(rates := t.rates[key := next], rateRows := rows + {Row(next.expiresAt, key)}), Ok(next))
  }

  /** Rows chosen by one cleanup transaction. */
  datatype Due = Due(tokens: set<Row>, sessions: set<Row>, rates: set<Row>)

  function Subjects(rows: set<Row>): set<string> {
    set r | r in rows :: r.subject
  }

  function PurgeRows(t: Tables, due: Due): Tables {
    var sessions := map a | a in t.sessions && Row(t.sessions[a].expiresAt, a) !in due.sessions :: t.sessions[a];
    t.(tokens := t.tokens - Subjects(due.tokens),
       tokenRows := t.tokenRows - due.tokens,
       sessions := sessions,
       sessionIndex := map h | h in t.sessionIndex && t.sessionIndex[h] in sessions :: t.sessionIndex[h],
       sessionRows := t.sessionRows - due.sessions,
       rates := map k | k in t.rates && Row(t.rates[k].expiresAt, k) !in due.rates :: t.rates[k],
       rateRows := t.rateRows - due.rates)
  }

  // ----- what the service does with one transaction -----

  /** `take_login_token` and the expiry check that follows it: the token is spent either way. */
  function TakeLive(t: Tables, hash: string, now: Time): (Tables, Result<LoginToken, Error>) {
    match TakeToken(t, hash)
    case (t', None) => (t', Err(InvalidToken))
    case (t', Some(token)) => (t', if token.expiresAt <= now then Err(ExpiredToken) else Ok(token))
  }

  function CreateSession(t: Tables, account: string, hash: string, now: Time, ttl: int): (Tables, Result<Time, Error>) {
    if ttl <= 0 then (t, Err(InvalidInput))
    else (ReplaceSession(t, Session(account, hash, Later(now, ttl))), Ok(Later(now, ttl)))
  }

  function AccountForSession(t: Tables, hash: string, now: Time): Option<string> {
    match FindSession(t, hash)
    case None => None
    case Some(s) => if s.expiresAt <= now then None else Some(s.account)
  }

  // ----- agreement of the tables -----

  ghost predicate TokensAgree(t: Tables) {
    && (forall r :: r in t.tokenRows ==> r.subject in t.tokens && t.tokens[r.subject].expiresAt == r.at)
    && (forall h :: h in t.tokens ==> Row(t.tokens[h].expiresAt, h) in t.tokenRows)
  }

  ghost predicate SessionRowsAgree(t: Tables) {
    && (forall r :: r in t.sessionRows ==>
          && r.subject in t.sessions
          && t.sessions[r.subject].expiresAt == r.at
          && t.sessions[r.subject].tokenHash == t.sessionRows[r])
    && (forall a :: a in t.sessions ==> Row(t.sessions[a].expiresAt, a) in t.sessionRows)
  }

  ghost predicate IndexAgrees(t: Tables) {
    && (forall a :: a in t.sessions ==>
          && t.sessions[a].account == a
          && t.sessions[a].tokenHash in t.sessionIndex
          && t.sessionIndex[t.sessions[a].tokenHash] == a)
    && (forall h :: h in t.sessionIndex ==>
          t.sessionIndex[h] in t.sessions && t.sessions[t.sessionIndex[h]].tokenHash == h)
  }

  ghost predicate RatesAgree(t: Tables) {
    && (forall r :: r in t.rateRows ==> r.subject in t.rates && t.rates[r.subject].expiresAt == r.at)
    && (forall k :: k in t.rates ==> Row(t.rates[k].expiresAt, k) in t.rateRows)
  }

  ghost predicate Agree(t: Tables) {
    TokensAgree(t) && SessionRowsAgree(t) && IndexAgrees(t) && RatesAgree(t)
  }

  /** Storing a token keeps the tables in agreement exactly when its hash is new or has the same expiry. */
  lemma PutTokenAgreesIff(t: Tables, hash: string, token: LoginToken)
    requires Agree(t)
    ensures Agree(PutToken(t, hash, token)) <==>
            (hash in t.tokens ==> t.tokens[hash].expiresAt == token.expiresAt)
  {
    var t' := PutToken(t, hash, token);
    if hash in t.tokens && t.tokens[hash].expiresAt != token.expiresAt {
      assert Row(t.tokens[hash].expiresAt, hash) in t'.tokenRows;
    }
  }

  lemma ReplaceSessionKeepsRows(t: Tables, s: Session)
    requires SessionRowsAgree(t)
    ensures SessionRowsAgree(ReplaceSession(t, s))
  {
  }

  lemma ReplaceSessionKeepsIndex(t: Tables, s: Session)
    requires IndexAgrees(t)
    ensures IndexAgrees(ReplaceSession(t, s)) <==>
            (s.tokenHash in t.sessionIndex ==> t.sessionIndex[s.tokenHash] == s.account)
  {
    var t' := ReplaceSession(t, s);
    if s.tokenHash in t.sessionIndex && t.sessionIndex[s.tokenHash] != s.account {
      var other := t.sessionIndex[s.tokenHash];
      assert other in t'.sessions && t'.sessions[other].tokenHash == s.tokenHash;
    }
  }

  /** Replacing a session keeps them in agreement exactly when its token hash is not another account's. */
  lemma ReplaceSessionAgreesIff(t: Tables, s: Session)
    requires Agree(t)
    ensures Agree(ReplaceSession(t, s)) <==>
            (s.tokenHash in t.sessionIndex ==> t.sessionIndex[s.tokenHash] == s.account)
  {
    ReplaceSessionKeepsRows(t, s);
    ReplaceSessionKeepsIndex(t, s);
  }

  lemma TakeTokenAgrees(t: Tables, hash: string)
    requires Agree(t)
    ensures Agree(TakeToken(t, hash).0)
  {
  }

  lemma BumpRateAgrees(t: Tables, key: string, now: Time, window: int)
    requires Agree(t)
    ensures Agree(BumpRate(t, key, now, window).0)
  {
  }

  /** Cleanup of any rows at all keeps the tables in agreement and removes exactly what those rows name. */
  lemma PurgeAgrees(t: Tables, due: Due)
    requires Agree(t)
    requires due.tokens <= t.tokenRows
    ensures Agree(PurgeRows(t, due))
    ensures forall h :: h in t.tokens && h !in PurgeRows(t, due).tokens ==> Row(t.tokens[h].expiresAt, h) in due.tokens
  {
    var t' := PurgeRows(t, due);
    forall h | h in t.tokens && Row(t.tokens[h].expiresAt, h) in due.tokens ensures h in Subjects(due.tokens) {
      assert Row(t.tokens[h].expiresAt, h).subject == h;
    }
    forall h | h in t.tokens && h in Subjects(due.tokens) ensures Row(t.tokens[h].expiresAt, h) in due.tokens {
      var r :| r in due.tokens && r.subject == h;
      assert r in t.tokenRows;
    }
    assert TokensAgree(t');
    assert SessionRowsAgree(t');
    assert IndexAgrees(t');
    assert RatesAgree(t');
  }

  /** In tables that agree, an account has at most one usable token, whatever the time of asking. */
  lemma OneUsableTokenPerAccount(t: Tables, h: string, h': string, now: Time, now': Time)
    requires Agree(t)
    requires AccountForSession(t, h, now).Some?
    requires AccountForSession(t, h, now) == AccountForSession(t, h', now')
    ensures h == h'
  {
  }

  /** A hash never finds a session of another hash, even through a stale index entry. */
  lemma FoundSessionHasHash(t: Tables, hash: string)
    ensures FindSession(t, hash).Some? ==> FindSession(t, hash).value.tokenHash == hash
  {
  }

  /** After a replacement the new hash finds the new session, the replaced one finds nothing, and others find what they did. */
  lemma ReplacedLookups(t: Tables, s: Session, other: string)
    requires Agree(t) && (s.tokenHash in t.sessionIndex ==> t.sessionIndex[s.tokenHash] == s.account)
    ensures FindSession(ReplaceSession(t, s), other) ==
            if other == s.tokenHash then Some(s)
            else if FindSession(t, other).Some? && FindSession(t, other).value.account == s.account then None
            else FindSession(t, other)
  {
  }

  /** A new session is usable until it expires, it replaces the account's earlier one, and no other account notices. */
  lemma LatestSessionOnly(t: Tables, account: string, hash: string, now: Time, ttl: int, other: string, later: Time)
    requires Agree(t) && ttl > 0 && (hash in t.sessionIndex ==> t.sessionIndex[hash] == account)
    ensures var t' := CreateSession(t, account, hash, now, ttl).0;
      AccountForSession(t', other, later) ==
        if other == hash then (if later < now + ttl && later < I64_MAX then Some(account) else None)
        else if AccountForSession(t, other, later) == Some(account) then None
        else AccountForSession(t, other, later)
  {
    ReplacedLookups(t, Session(account, hash, Later(now, ttl)), other);
  }

  /** An issued token is taken successfully at most once, exactly before it expires, and comes back as it was stored. */
  lemma IssuedTokenIsTakenOnce(t: Tables, hash: string, token: LoginToken, later: Time, again: Time)
    ensures var (t', r) := TakeLive(PutToken(t, hash, token), hash, later);
      && r == (if later < token.expiresAt then Ok(token) else Err(ExpiredToken))
      && t'.logins == t.logins
      && TakeLive(t', hash, again).1 == Err(InvalidToken)
  {
  }

  function BumpAll(t: Tables, key: string, times: seq<Time>, window: int): Tables
    decreases |times|
  {
    if times == [] then t
    else BumpRate(BumpAll(t, key, times[..|times| - 1], window), key, times[|times| - 1], window).0
  }

  /** A window counts exactly the requests made in it, saturating, and keeps the end its first request set. */
  lemma {:induction false} WindowCountsRequests(t: Tables, key: string, times: seq<Time>, window: int)
    requires key != "" && window > 0 && times != []
    requires key in t.rates ==> t.rates[key].expiresAt <= times[0]
    requires forall i :: 0 <= i < |times| ==> times[i] < times[0] + window && times[i] < I64_MAX
    ensures BumpAll(t, key, times, window).rates == t.rates[key := Bucket(
              if |times| <= U64_MAX then |times| else U64_MAX,
              if times[0] + window <= I64_MAX then times[0] + window else I64_MAX)]
    decreases |times|
  {
    var before := times[..|times| - 1];
    if before == [] {
      assert BumpAll(t, key, before, window) == t;
    } else {
      WindowCountsRequests(t, key, before, window);
    }
  }

  /** A request is refused exactly without a key or a window; otherwise it is told the bucket that is then stored. */
  lemma BumpAnswersStored(t: Tables, key: string, now: Time, window: int)
    ensures var (t', r) := BumpRate(t, key, now, window);
      && (r.Err? <==> key == "" || window <= 0)
      && (r.Err? ==> t' == t && r == Err(InvalidBucket))
      && (r.Ok? ==> key in t'.rates && r.value == t'.rates[key] && t'.rates == t.rates[key := r.value])
  {
  }

  /** So the last of the requests in a window is told how many there were, and a limit refuses exactly those beyond it. */
  lemma WindowAnswersCount(t: Tables, key: string, times: seq<Time>, window: int, limit: nat)
    requires key != "" && window > 0 && times != [] && |times| <= U64_MAX
    requires key in t.rates ==> t.rates[key].expiresAt <= times[0]
    requires forall i :: 0 <= i < |times| ==> times[i] < times[0] + window && times[i] < I64_MAX
    ensures var r := BumpRate(BumpAll(t, key, times[..|times| - 1], window), key, times[|times| - 1], window).1;
      r.Ok? && r.value.count == |times| && (r.value.count > limit <==> |times| > limit)
  {
    WindowCountsRequests(t, key, times, window);
    BumpAnswersStored(BumpAll(t, key, times[..|times| - 1], window), key, times[|times| - 1], window);
  }

  // ----- the unexpired part of the tables -----

  ghost predicate SameTokens(t: Tables, u: Tables, now: Time) {
    && t.logins == u.logins
    && (forall h :: h in t.tokens && t.tokens[h].expiresAt > now ==> h in u.tokens && u.tokens[h] == t.tokens[h])
    && (forall h :: h in u.tokens && u.tokens[h].expiresAt > now ==> h in t.tokens && u.tokens[h] == t.tokens[h])
  }

  ghost predicate SameSessions(t: Tables, u: Tables, now: Time) {
    && (forall a :: a in t.sessions && t.sessions[a].expiresAt > now ==> a in u.sessions && u.sessions[a] == t.sessions[a])
    && (forall a :: a in u.sessions && u.sessions[a].expiresAt > now ==> a in t.sessions && u.sessions[a] == t.sessions[a])
  }

  ghost predicate SameRates(t: Tables, u: Tables, now: Time) {
    && (forall k :: k in t.rates && t.rates[k].expiresAt > now ==> k in u.rates && u.rates[k] == t.rates[k])
    && (forall k :: k in u.rates && u.rates[k].expiresAt > now ==> k in t.rates && u.rates[k] == t.rates[k])
  }

  /** The two tables hold the same logins and the same tokens, sessions and buckets that are unexpired at `now`. */
  ghost predicate SameLive(t: Tables, u: Tables, now: Time) {
    SameTokens(t, u, now) && SameSessions(t, u, now) && SameRates(t, u, now)
  }

  lemma PurgeKeepsLive(t: Tables, due: Due, now: Time)
    requires Agree(t) && due.tokens <= t.tokenRows
    requires forall r :: r in due.tokens + due.sessions + due.rates ==> r.at <= now
    ensures SameLive(PurgeRows(t, due), t, now)
  {
    PurgeAgrees(t, due);
  }

  lemma SameLiveComposes(t: Tables, u: Tables, v: Tables, now: Time, later: Time)
    requires SameLive(t, u, later) && SameLive(u, v, now) && now <= later
    ensures SameLive(t, v, later)
  {
  }
}
