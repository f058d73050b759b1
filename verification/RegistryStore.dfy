/**
 The metadata store as the program runs it: tables updated in place, bounded cleanup
 that scans each expiry table in text order, the loop that repeats cleanup, and the
 backfill of the expiry tables on first open.
 */
module RegistryStore {
  import opened Common
  import opened ExpiryKeys
  import opened RegistryTables

  // ----- scan order -----

  function RowKey(r: Row): string {
    ExpiryKey(r.at, r.subject)
  }

  /** Rows as the table iterates them: by the text of their keys. */
  predicate Before(r: Row, r': Row) {
    Compare(RowKey(r), RowKey(r')) != Greater
  }

  predicate First(rows: set<Row>, r: Row) {
    r in rows && forall r' :: r' in rows ==> Before(r, r')
  }

  lemma BeforeMeans(r: Row, r': Row)
    ensures Before(r, r') <==> r.at < r'.at || (r.at == r'.at && Compare(r.subject, r'.subject) != Greater)
  {
    KeysSortByTimeThenSubject(r.at, r.subject, r'.at, r'.subject);
  }

  lemma {:induction false} HasFirst(rows: set<Row>)
    requires rows != {}
    ensures exists r :: First(rows, r)
  {
    var r :| r in rows;
    CompareFlips(RowKey(r), RowKey(r));
    if rows == {r} {
      assert First(rows, r);
    } else {
      HasFirst(rows - {r});
      var m :| First(rows - {r}, m);
      CompareFlips(RowKey(r), RowKey(m));
      CompareFlips(RowKey(m), RowKey(m));
      if Before(r, m) {
        forall r' | r' in rows ensures Before(r, r') {
          if r' != r {
            assert r' in rows - {r} && Before(m, r');
            CompareTransitive(RowKey(r), RowKey(m), RowKey(r'));
          }
        }
        assert First(rows, r);
      } else {
        assert First(rows, m);
      }
    }
  }

  // ----- the effect of one cleanup, row by row -----

  function Rows(due: seq<Row>): set<Row> {
    set i | 0 <= i < |due| :: due[i]
  }

  predicate Distinct(due: seq<Row>) {
    forall j, k :: 0 <= j < k < |due| ==> due[j] != due[k]
  }

  lemma RowsGrow(due: seq<Row>, i: nat)
    requires i < |due|
    requires Distinct(due)
    ensures Rows(due[..i + 1]) == Rows(due[..i]) + {due[i]}
    ensures due[i] !in Rows(due[..i])
  {
    assert due[..i + 1][i] == due[i];
    forall r | r in Rows(due[..i]) ensures r in Rows(due[..i + 1]) {
      var j :| 0 <= j < i && due[..i][j] == r;
      assert due[..i + 1][j] == r;
    }
    forall r | r in Rows(due[..i + 1]) ensures r in Rows(due[..i]) + {due[i]} {
      var j :| 0 <= j < i + 1 && due[..i + 1][j] == r;
      if j < i { assert due[..i][j] == r; }
    }
  }

  lemma RowsAppend(due: seq<Row>, row: Row)
    requires Distinct(due) && row !in Rows(due)
    ensures Distinct(due + [row]) && Rows(due + [row]) == Rows(due) + {row}
  {
    var longer := due + [row];
    assert longer[..|due|] == due && longer[..|due| + 1] == longer;
    forall j | 0 <= j < |due| ensures longer[j] != row { assert due[j] in Rows(due); }
    RowsGrow(longer, |due|);
  }

  lemma PurgeTokenRow(t: Tables, due: Due, row: Row)
    ensures var t' := PurgeRows(t, due);
      PurgeRows(t, due.(tokens := due.tokens + {row})) ==
        t'.(tokens := t'.tokens - {row.subject}, tokenRows := t'.tokenRows - {row})
  {
    assert Subjects(due.tokens + {row}) == Subjects(due.tokens) + {row.subject};
  }

  lemma PurgedSessions(t: Tables, due: Due, row: Row)
    requires SessionRowsAgree(t) && row in t.sessionRows && row !in due.sessions
    ensures var t', t'' := PurgeRows(t, due), PurgeRows(t, due.(sessions := due.sessions + {row}));
      && row.subject in t'.sessions && t'.sessions[row.subject] == t.sessions[row.subject]
      && t''.sessions == t'.sessions - {row.subject}
      && t''.sessionRows == t'.sessionRows - {row}
  {
    assert Row(t.sessions[row.subject].expiresAt, row.subject) == row;
  }

  lemma PurgedIndex(t: Tables, due: Due, row: Row)
    requires SessionRowsAgree(t) && IndexAgrees(t) && row in t.sessionRows && row !in due.sessions
    ensures PurgeRows(t, due.(sessions := due.sessions + {row})).sessionIndex ==
            PurgeRows(t, due).sessionIndex - {t.sessionRows[row]}
  {
    PurgedSessions(t, due, row);
    var t', t'' := PurgeRows(t, due), PurgeRows(t, due.(sessions := due.sessions + {row}));
    forall h | h in t.sessionIndex
      ensures t.sessionIndex[h] in t''.sessions <==> t.sessionIndex[h] in t'.sessions && h != t.sessionRows[row]
    {
      assert t.sessions[t.sessionIndex[h]].tokenHash == h;
    }
  }

  lemma PurgeSessionRow(t: Tables, due: Due, row: Row)
    requires SessionRowsAgree(t) && IndexAgrees(t) && row in t.sessionRows && row !in due.sessions
    ensures var t' := PurgeRows(t, due);
      && row.subject in t'.sessions && t'.sessions[row.subject] == t.sessions[row.subject]
      && PurgeRows(t, due.(sessions := due.sessions + {row})) == DropSession(t', row, t.sessionRows[row])
  {
    PurgedSessions(t, due, row);
    PurgedIndex(t, due, row);
  }

  function DropSession(t: Tables, row: Row, hash: string): Tables {
    t.(sessions := t.sessions - {row.subject},
       sessionIndex := t.sessionIndex - {hash},
       sessionRows := t.sessionRows - {row})
  }

  lemma PurgeRateRow(t: Tables, due: Due, row: Row)
    requires Agree(t) && row in t.rateRows && row !in due.rates
    ensures var t' := PurgeRows(t, due);
      && row.subject in t'.rates && t'.rates[row.subject] == t.rates[row.subject]
      && PurgeRows(t, due.(rates := due.rates + {row})) ==
           t'.(rates := t'.rates - {row.subject}, rateRows := t'.rateRows - {row})
  {
    assert Row(t.rates[row.subject].expiresAt, row.subject) == row;
  }

  /** No row of a table is due at `now`. */
  predicate NoneDue(rows: set<Row>, now: Time) {
    forall r :: r in rows ==> r.at > now
  }

  predicate AllDue(rows: set<Row>, now: Time) {
    forall r :: r in rows ==> r.at <= now
  }

  /** `rows` are the first due rows of `table`, as many as there is room for. */
  ghost predicate Took(table: set<Row>, rows: set<Row>, now: Time, room: nat) {
    && rows <= table && AllDue(rows, now) && |rows| <= room
    && (|rows| < room ==> NoneDue(table - rows, now))
    && (forall r, r' :: r in rows && r' in table - rows ==> Before(r, r'))
  }

  class Store {
    var tokens: map<string, LoginToken>
    var tokenRows: set<Row>
    var sessions: map<string, Session>
    var sessionIndex: map<string, string>
    var sessionRows: map<Row, string>
    var rates: map<string, Bucket>
    var rateRows: set<Row>
    var logins: map<string, string>
    var backfilled: bool

    function State(): Tables
      reads this
    {
      Tables(tokens, tokenRows, sessions, sessionIndex, sessionRows, rates, rateRows, logins)
    }

    constructor Open(tokens: map<string, LoginToken>, sessions: map<string, Session>,
                     sessionIndex: map<string, string>, rates: map<string, Bucket>, logins: map<string, string>)
      ensures tokens == this.tokens && sessions == this.sessions && sessionIndex == this.sessionIndex
      ensures rates == this.rates && logins == this.logins
      ensures TokensAgree(State()) && SessionRowsAgree(State()) && RatesAgree(State())
    {
      this.tokens, this.sessions, this.sessionIndex := tokens, sessions, sessionIndex;
      this.rates, this.logins := rates, logins;
      tokenRows, sessionRows, rateRows, backfilled := {}, map[], {}, false;
      new;
      Backfill();
    }

    /** First open of a database written before the expiry tables existed: one row for every stored entry. */
    method Backfill()
      requires !backfilled ==> tokenRows == {} && sessionRows == map[] && rateRows == {}
      modifies this`tokenRows, this`sessionRows, this`rateRows, this`backfilled
      ensures backfilled
      ensures old(backfilled) ==> State() == old(State())
      ensures !old(backfilled) ==> TokensAgree(State()) && SessionRowsAgree(State()) && RatesAgree(State())
    {
      if backfilled {
        return;
      }
      var hashes := tokens.Keys;
      while hashes != {}
        invariant hashes <= tokens.Keys && sessionRows == map[] && rateRows == {}
        invariant forall r :: r in tokenRows ==> r.subject in tokens && tokens[r.subject].expiresAt == r.at
        invariant forall h :: h in tokens && h !in hashes ==> Row(tokens[h].expiresAt, h) in tokenRows
        decreases hashes
      {
        var h :| h in hashes;
        tokenRows := tokenRows + {Row(tokens[h].expiresAt, h)};
        hashes := hashes - {h};
      }
      var accounts := sessions.Keys;
      while accounts != {}
        invariant accounts <= sessions.Keys && TokensAgree(State()) && rateRows == {}
        invariant forall r :: r in sessionRows ==>
                    && r.subject in sessions
                    && sessions[r.subject].expiresAt == r.at
                    && sessions[r.subject].tokenHash == sessionRows[r]
        invariant forall a :: a in sessions && a !in accounts ==> Row(sessions[a].expiresAt, a) in sessionRows
        decreases accounts
      {
        var a :| a in accounts;
        sessionRows := sessionRows[Row(sessions[a].expiresAt, a) := sessions[a].tokenHash];
        accounts := accounts - {a};
      }
      var keys := rates.Keys;
      while keys != {}
        invariant keys <= rates.Keys && TokensAgree(State()) && SessionRowsAgree(State())
        invariant forall r :: r in rateRows ==> r.subject in rates && rates[r.subject].expiresAt == r.at
        invariant forall k :: k in rates && k !in keys ==> Row(rates[k].expiresAt, k) in rateRows
        decreases keys
      {
        var k :| k in keys;
        rateRows := rateRows + {Row(rates[k].expiresAt, k)};
        keys := keys - {k};
      }
      backfilled := true;
    }

    method PutLoginToken(hash: string, token: LoginToken)
      modifies this
      ensures State() == PutToken(old(State()), hash, token)
    {
      tokens := tokens[hash := token];
      tokenRows := tokenRows + {Row(token.expiresAt, hash)};
    }

    method TakeLoginToken(hash: string) returns (taken: Option<LoginToken>)
      modifies this
      ensures (State(), taken) == TakeToken(old(State()), hash)
    {
      if hash !in tokens {
        return None;
      }
      var token := tokens[hash];
      tokens := tokens - {hash};
      tokenRows := tokenRows - {Row(token.expiresAt, hash)};
      taken := Some(token);
    }

    method GetOrCreateAccount(login: string, newId: string) returns (r: AccountLogin)
      modifies this
      ensures (State(), r) == GetOrCreate(old(State()), login, newId)
    {
      if login in logins {
        r := AccountLogin(logins[login], false);
      } else {
        logins := logins[login := newId];
        r := AccountLogin(newId, true);
      }
    }

    method Replace(session: Session)
      modifies this
      ensures State() == ReplaceSession(old(State()), session)
    {
      var account := session.account;
      var previous := if account in sessions then Some(sessions[account]) else None;
      sessions := sessions[account := session];
      if previous.Some? {
        sessionIndex := sessionIndex - {previous.value.tokenHash};
        sessionRows := sessionRows - {Row(previous.value.expiresAt, account)};
      }
      sessionIndex := sessionIndex[session.tokenHash := account];
      sessionRows := sessionRows[Row(session.expiresAt, account) := session.tokenHash];
    }

    method BumpRateLimit(key: string, now: Time, window: int) returns (r: Result<Bucket, Error>)
      modifies this
      ensures (State(), r) == BumpRate(old(State()), key, now, window)
    {
      if key == "" || window <= 0 {
        return Err(InvalidBucket);
      }
      var current := if key in rates then Some(rates[key]) else None;
      var next;
      if current.Some? && current.value.expiresAt > now {
        next := current.value.(count := SatAdd(current.value.count, 1, U64_MAX));
      } else {
        next := Bucket(1, Later(now, window));
      }
      rates := rates[key := next];
      if current.Some? {
        rateRows := rateRows - {Row(current.value.expiresAt, key)};
      }
      rateRows := rateRows + {Row(next.expiresAt, key)};
      r := Ok(next);
    }

    /** The first `room` due rows in table order. */
    method Scan(rows: set<Row>, now: Time, room: nat) returns (due: seq<Row>)
      requires room > 0
      ensures Distinct(due) && |Rows(due)| == |due|
      ensures Took(rows, Rows(due), now, room)
    {
      var rest := rows;
      due := [];
      while rest != {} && |due| < room
        invariant |due| <= room && |Rows(due)| == |due|
        invariant rest == rows - Rows(due) && Rows(due) <= rows
        invariant Distinct(due)
        invariant AllDue(Rows(due), now)
        invariant forall r, r' :: r in Rows(due) && r' in rest ==> Before(r, r')
        decreases rest
      {
        HasFirst(rest);
        var row :| First(rest, row);
        if row.at > now {
          forall r | r in rest ensures r.at > now { BeforeMeans(row, r); }
          break;
        }
        RowsAppend(due, row);
        due := due + [row];
        rest := rest - {row};
      }
    }

    /**
     One bounded cleanup. It removes exactly the entries named by the due rows it took: at most
     `limit`, never a live one, oldest first within a table, tokens before sessions before rates;
     fewer than `limit` means nothing due is left anywhere.
     */
    method PurgeExpired(now: Time, limit: nat) returns (removed: nat, ghost due: Due)
      requires Agree(State())
      modifies this
      ensures State() == PurgeRows(old(State()), due) && Agree(State()) && backfilled == old(backfilled)
      ensures removed == |due.tokens| + |due.sessions| + |due.rates| <= limit
      ensures Took(old(tokenRows), due.tokens, now, limit)
      ensures Took(old(sessionRows).Keys, due.sessions, now, limit - |due.tokens|)
      ensures Took(old(rateRows), due.rates, now, limit - |due.tokens| - |due.sessions|)
    {
      ghost var start := State();
      EmptyPurge(start);
      var n;
      ghost var rows;
      removed, rows := CleanTokens(now, limit, start);
      due := Due(rows, {}, {});
      n, rows := CleanSessions(now, limit - removed, start, due);
      removed, due := removed + n, due.(sessions := rows);
      n, rows := CleanRates(now, limit - removed, start, due);
      removed, due := removed + n, due.(rates := rows);
      PurgeAgrees(start, due);
    }

    method CleanTokens(now: Time, room: nat, ghost start: Tables) returns (removed: nat, ghost rows: set<Row>)
      requires State() == start && Agree(start)
      modifies this`tokens, this`tokenRows
      ensures State() == PurgeRows(start, Due(rows, {}, {}))
      ensures Took(start.tokenRows, rows, now, room) && removed == |rows|
    {
      removed, rows := 0, {};
      EmptyPurge(start);
      if room > 0 {
        var due := Scan(tokenRows, now, room);
        removed := PurgeTokens(due, start);
        rows := Rows(due);
      }
    }

    method CleanSessions(now: Time, room: nat, ghost start: Tables, ghost due: Due) returns (removed: nat, ghost rows: set<Row>)
      requires State() == PurgeRows(start, due) && Agree(start) && due.sessions == {}
      modifies this`sessions, this`sessionIndex, this`sessionRows
      ensures State() == PurgeRows(start, due.(sessions := rows))
      ensures Took(start.sessionRows.Keys, rows, now, room) && removed == |rows|
    {
      removed, rows := 0, {};
      if room > 0 {
        assert sessionRows == start.sessionRows;
        var found := Scan(sessionRows.Keys, now, room);
        removed := PurgeSessions(found, start, due);
        rows := Rows(found);
      }
    }

    method CleanRates(now: Time, room: nat, ghost start: Tables, ghost due: Due) returns (removed: nat, ghost rows: set<Row>)
      requires State() == PurgeRows(start, due) && Agree(start) && due.rates == {}
      modifies this`rates, this`rateRows
      ensures State() == PurgeRows(start, due.(rates := rows))
      ensures Took(start.rateRows, rows, now, room) && removed == |rows|
    {
      removed, rows := 0, {};
      if room > 0 {
        assert rateRows == start.rateRows;
        var found := Scan(rateRows, now, room);
        removed := PurgeRates(found, start, due);
        rows := Rows(found);
      }
    }

    method PurgeTokens(rows: seq<Row>, ghost start: Tables) returns (removed: nat)
      requires State() == start && Agree(start)
      requires Distinct(rows)
      modifies this`tokens, this`tokenRows
      ensures State() == PurgeRows(start, Due(Rows(rows), {}, {}))
      ensures removed == |rows| == |Rows(rows)|
    {
      EmptyPurge(start);
      removed := 0;
      while removed < |rows|
        invariant 0 <= removed <= |rows| && |Rows(rows[..removed])| == removed
        invariant State() == PurgeRows(start, Due(Rows(rows[..removed]), {}, {}))
      {
        RowsGrow(rows, removed);
        PurgeTokenRow(start, Due(Rows(rows[..removed]), {}, {}), rows[removed]);
        tokens := tokens - {rows[removed].subject};
        tokenRows := tokenRows - {rows[removed]};
        removed := removed + 1;
      }
      assert rows[..removed] == rows;
    }

    method PurgeSessions(rows: seq<Row>, ghost start: Tables, ghost due: Due) returns (removed: nat)
      requires State() == PurgeRows(start, due) && Agree(start) && due.sessions == {}
      requires Distinct(rows)
      requires Rows(rows) <= start.sessionRows.Keys
      modifies this`sessions, this`sessionIndex, this`sessionRows
      ensures State() == PurgeRows(start, due.(sessions := Rows(rows)))
      ensures removed == |rows| == |Rows(rows)|
    {
      removed := 0;
      while removed < |rows|
        invariant 0 <= removed <= |rows| && |Rows(rows[..removed])| == removed
        invariant State() == PurgeRows(start, due.(sessions := Rows(rows[..removed])))
      {
        var row := rows[removed];
        assert row in Rows(rows);
        RowsGrow(rows, removed);
        PurgeSessionRow(start, due.(sessions := Rows(rows[..removed])), row);
        PurgeSession(row, sessionRows[row]);
        removed := removed + 1;
      }
      assert rows[..removed] == rows;
    }

    /** A session is dropped only if the row is still its own; the row goes in any case. */
    method PurgeSession(row: Row, hash: string)
      modifies this`sessions, this`sessionIndex, this`sessionRows
      ensures var t := old(State());
        State() ==
          if row.subject in t.sessions && t.sessions[row.subject].tokenHash == hash && t.sessions[row.subject].expiresAt == row.at
          then DropSession(t, row, hash)
          else t.(sessionRows := t.sessionRows - {row})
    {
      if row.subject in sessions && sessions[row.subject].tokenHash == hash && sessions[row.subject].expiresAt == row.at {
        sessions := sessions - {row.subject};
        sessionIndex := sessionIndex - {hash};
      }
      sessionRows := sessionRows - {row};
    }

    method PurgeRates(rows: seq<Row>, ghost start: Tables, ghost due: Due) returns (removed: nat)
      requires State() == PurgeRows(start, due) && Agree(start) && due.rates == {}
      requires Distinct(rows)
      requires Rows(rows) <= start.rateRows
      modifies this`rates, this`rateRows
      ensures State() == PurgeRows(start, due.(rates := Rows(rows)))
      ensures removed == |rows| == |Rows(rows)|
    {
      removed := 0;
      while removed < |rows|
        invariant 0 <= removed <= |rows| && |Rows(rows[..removed])| == removed
        invariant State() == PurgeRows(start, due.(rates := Rows(rows[..removed])))
      {
        var row := rows[removed];
        assert row in Rows(rows);
        RowsGrow(rows, removed);
        PurgeRateRow(start, due.(rates := Rows(rows[..removed])), row);
        if row.subject in rates && rates[row.subject].expiresAt == row.at {
          rates := rates - {row.subject};
        }
        rateRows := rateRows - {row};
        removed := removed + 1;
      }
      assert rows[..removed] == rows;
    }

    /** The maintenance loop, run alone, ends with nothing due in any table. */
    method Maintain(now: Time, batch: nat)
      requires Agree(State()) && batch > 0
      modifies this
      ensures Agree(State())
      ensures NoneDue(tokenRows, now) && NoneDue(sessionRows.Keys, now) && NoneDue(rateRows, now)
      ensures forall h :: h in old(tokens) && old(tokens)[h].expiresAt > now ==> h in tokens && tokens[h] == old(tokens)[h]
      ensures forall a :: a in old(sessions) && old(sessions)[a].expiresAt > now ==> a in sessions && sessions[a] == old(sessions)[a]
      ensures forall k :: k in old(rates) && old(rates)[k].expiresAt > now ==> k in rates && rates[k] == old(rates)[k]
    {
      ghost var start := State();
      var removed := batch;
      while removed >= batch
        invariant Agree(State())
        invariant SameLive(State(), start, now)
        invariant removed < batch ==> NoneDue(tokenRows, now) && NoneDue(sessionRows.Keys, now) && NoneDue(rateRows, now)
        decreases |tokenRows| + |sessionRows| + |rateRows| + (if removed >= batch then 1 else 0)
      {
        ghost var before := State();
        ghost var due: Due;
        removed, due := PurgeExpired(now, batch);
        PurgeKeepsLive(before, due, now);
        SameLiveComposes(State(), before, start, now, now);
        RowsLeft(before.tokenRows, due.tokens);
        RowsLeft(before.sessionRows.Keys, due.sessions);
        RowsLeft(before.rateRows, due.rates);
        assert sessionRows.Keys == before.sessionRows.Keys - due.sessions;
      }
    }
  }

  lemma EmptyPurge(t: Tables)
    requires Agree(t)
    ensures PurgeRows(t, Due({}, {}, {})) == t
  {
  }

  lemma RowsLeft(rows: set<Row>, taken: set<Row>)
    requires taken <= rows
    ensures |rows - taken| == |rows| - |taken|
  {
    assert rows == (rows - taken) + taken;
  }
}
