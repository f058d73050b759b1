/**
 File-backed key-value store with a write-ahead journal, and the in-memory
 transaction layered on it.
 An interruption is a budget: the number of atomic disk operations (a rename with its
 directory sync, an unlink, a directory sync) that still succeed. A budget that runs out is an
 I/O error: the process may go on, or it may crash at that point or at any later one.
 */
module FileStore {
  import opened Common
  import opened Storage

  type Files = map<Bytes, Bytes>
  type Write = Mutation<Bytes, Bytes>

  datatype Error = RecoveryRequired | Interrupted

  // ----- the disk under interruption -----

  /** `Unsynced` is a journal that was unlinked while the directory sync after it failed: gone, but a crash may bring it back. */
  datatype Journal = Gone | Unsynced(unlinked: seq<Write>) | Present(mutations: seq<Write>)

  datatype Disk = Disk(files: Files, journal: Journal)

  /** What a complete recovery of this disk yields. */
  function Contents(d: Disk): Files {
    if d.journal.Present? then ApplyAll(d.files, d.journal.mutations) else d.files
  }

  /** Apply a durable journal, unlink it, sync the directory. */
  function Finish(d: Disk, power: nat): (Disk, bool)
    requires d.journal.Present?
  {
    var ms := d.journal.mutations;
    if power <= |ms| then (Disk(ApplyAll(d.files, ms[..power]), Present(ms)), false)
    else if power == |ms| + 1 then (Disk(ApplyAll(d.files, ms), Unsynced(ms)), false)
    else (Disk(ApplyAll(d.files, ms), Gone), true)
  }

  function Batched(d: Disk, ms: seq<Write>, power: nat): (Disk, Result<(), Error>) {
    if d.journal.Present? then (d, Err(RecoveryRequired))
    else if ms == [] then (d, Ok(()))
    else if power == 0 then (d, Err(Interrupted))
    else
      var (d', done) := Finish(Disk(d.files, Present(ms)), power - 1);
      (d', if done then Ok(()) else Err(Interrupted))
  }

  function Reopened(d: Disk, power: nat): (Disk, Result<(), Error>) {
    if !d.journal.Present? then (d, Ok(()))
    else
      var (d', done) := Finish(d, power);
      (d', if done then Ok(()) else Err(Interrupted))
  }

  /** Writing a file syncs the directory, and with it an earlier unlink of the journal; deleting one does not. */
  function Wrote(d: Disk, m: Write, power: nat): (Disk, Result<(), Error>) {
    if d.journal.Present? then (d, Err(RecoveryRequired))
    else if power == 0 then (d, Err(Interrupted))
    else (Disk(Applied(d.files, m), if m.Put? then Gone else d.journal), Ok(()))
  }

  /** A crash decides whether an unsynced unlink of the journal lasted. */
  function Crashed(d: Disk, unlinkLasts: bool): Disk {
    match d.journal
    case Unsynced(ms) => d.(journal := if unlinkLasts then Gone else Present(ms))
    case _ => d
  }

  /** Replaying an unsynced journal would change nothing. */
  ghost predicate Settled(d: Disk) {
    d.journal.Unsynced? ==> ApplyAll(d.files, d.journal.unlinked) == d.files
  }

  /** However far a replay gets, the recoverable contents stay the same; a completed one has them on disk. */
  lemma FinishPreserves(d: Disk, power: nat)
    requires d.journal.Present?
    ensures Contents(Finish(d, power).0) == Contents(d) && Settled(Finish(d, power).0)
    ensures Finish(d, power).1 ==> Finish(d, power).0 == Disk(Contents(d), Gone)
  {
    var ms := d.journal.mutations;
    ReplayAfterPrefix(d.files, ms, Min(power, |ms|));
    ReplayAfterPrefix(d.files, ms, |ms|);
    assert ms[..|ms|] == ms;
  }

  /** A batch is all or nothing, and it is all exactly when its journal reached the disk. */
  lemma BatchIsAtomic(d: Disk, ms: seq<Write>, power: nat)
    requires !d.journal.Present?
    ensures var (d', r) := Batched(d, ms, power);
      && Contents(d') == (if ms != [] && power > 0 then ApplyAll(d.files, ms) else d.files)
      && (Settled(d) ==> Settled(d'))
      && (r.Ok? ==> d' == Disk(ApplyAll(d.files, ms), if ms == [] then d.journal else Gone))
  {
    if ms != [] && power > 0 {
      FinishPreserves(Disk(d.files, Present(ms)), power - 1);
    }
  }

  // ----- whole runs with any number of interruptions -----

  datatype Event =
    | Batch(ms: seq<Write>, power: nat)
    | Single(m: Write, power: nat)
    | Reopen(power: nat)
    | Crash(unlinkLasts: bool)

  function Next(d: Disk, e: Event): Disk {
    match e
    case Batch(ms, power) => Batched(d, ms, power).0
    case Single(m, power) => Wrote(d, m, power).0
    case Reopen(power) => Reopened(d, power).0
    case Crash(unlinkLasts) => Crashed(d, unlinkLasts)
  }

  function Run(d: Disk, events: seq<Event>): Disk
    decreases |events|
  {
    if events == [] then d else Next(Run(d, events[..|events| - 1]), events[|events| - 1])
  }

  /** The plain map a caller imagines: a batch or write takes effect at one instant, or not at all. */
  function Imagined(f: Files, d: Disk, e: Event): Files {
    match e
    case Batch(ms, power) => if !d.journal.Present? && power > 0 then ApplyAll(f, ms) else f
    case Single(m, power) => if !d.journal.Present? && power > 0 then Applied(f, m) else f
    case Reopen(_) => f
    case Crash(_) => f
  }

  function ImaginedRun(d: Disk, events: seq<Event>): Files
    decreases |events|
  {
    if events == [] then Contents(d)
    else
      var before := events[..|events| - 1];
      Imagined(ImaginedRun(d, before), Run(d, before), events[|events| - 1])
  }

  /** A delete that is accepted while a journal that wrote its key is still unsynced. */
  predicate Resurrects(d: Disk, e: Event) {
    && e.Single? && e.power > 0 && e.m.Delete?
    && d.journal.Unsynced? && LastUse(d.journal.unlinked, e.m.key) > 0
    && d.journal.unlinked[LastUse(d.journal.unlinked, e.m.key) - 1].Put?
  }

  lemma ReplayAfterDelete(f: Files, ms: seq<Write>, key: Bytes)
    requires ApplyAll(f, ms) == f
    ensures ApplyAll(f - {key}, ms) == f - {key} <==> !(LastUse(ms, key) > 0 && ms[LastUse(ms, key) - 1].Put?)
  {
    var g := f - {key};
    LastMutationDecides(g, ms, key);
    if !(LastUse(ms, key) > 0 && ms[LastUse(ms, key) - 1].Put?) {
      forall k ensures Lookup(ApplyAll(g, ms), k) == Lookup(g, k) {
        LastMutationDecides(f, ms, k);
        LastMutationDecides(g, ms, k);
      }
      SameLookups(ApplyAll(g, ms), g);
    }
  }

  /** Every step refines the plain map, and leaves nothing a crash could change exactly when it resurrects nothing. */
  lemma NextRefines(d: Disk, e: Event)
    requires Settled(d)
    ensures Contents(Next(d, e)) == Imagined(Contents(d), d, e)
    ensures Settled(Next(d, e)) <==> !Resurrects(d, e)
  {
    match e
    case Batch(ms, power) => if !d.journal.Present? { BatchIsAtomic(d, ms, power); }
    case Single(m, power) =>
      if d.journal.Unsynced? && m.Delete? { ReplayAfterDelete(d.files, d.journal.unlinked, m.key); }
    case Reopen(power) => if d.journal.Present? { FinishPreserves(d, power); }
    case Crash(_) =>
  }

  lemma CrashShowsUnsettled(d: Disk)
    ensures (forall lasts: bool :: Contents(Crashed(d, lasts)) == Contents(d)) <==> Settled(d)
  {
    if d.journal.Unsynced? {
      assert Contents(Crashed(d, false)) == ApplyAll(d.files, d.journal.unlinked);
    }
  }

  ghost predicate NothingResurrected(d: Disk, events: seq<Event>) {
    forall k :: 0 <= k < |events| ==> !Resurrects(Run(d, events[..k]), events[k])
  }

  function CrashedAfter(d: Disk, events: seq<Event>, lasts: bool): Files {
    Contents(Crashed(Run(d, events), lasts))
  }

  /** Whichever way a crash falls now, recovery yields the imagined map. */
  ghost predicate Survives(d: Disk, events: seq<Event>) {
    forall lasts: bool :: CrashedAfter(d, events, lasts) == ImaginedRun(d, events)
  }

  /** The same after every step of the run. */
  ghost predicate SurvivesCrashes(d: Disk, events: seq<Event>) {
    forall k :: 0 <= k <= |events| ==> Survives(d, events[..k])
  }

  /** The journalled store refines the plain map through every sequence of operations, I/O errors, crashes and crashed replays that resurrects nothing. */
  lemma {:induction false} RefinesPlainMap(d: Disk, events: seq<Event>)
    requires Settled(d) && NothingResurrected(d, events)
    ensures Settled(Run(d, events)) && Contents(Run(d, events)) == ImaginedRun(d, events)
    ensures !Run(d, events).journal.Present? ==> Run(d, events).files == ImaginedRun(d, events)
    decreases |events|
  {
    if events != [] {
      var n := |events| - 1;
      assert forall k :: 0 <= k < n ==> events[..n][..k] == events[..k];
      RefinesPlainMap(d, events[..n]);
      NextRefines(Run(d, events[..n]), events[n]);
    }
  }

  /** And it survives every crash in a run exactly when nothing is resurrected in it. */
  lemma {:induction false} SurvivesIffNothingResurrected(d: Disk, events: seq<Event>)
    requires Settled(d)
    ensures SurvivesCrashes(d, events) <==> NothingResurrected(d, events)
    decreases |events|
  {
    if events == [] {
      CrashShowsUnsettled(d);
      assert forall k :: 0 <= k <= 0 ==> events[..k] == [];
    } else {
      var n := |events| - 1;
      var before := events[..n];
      SurvivesIffNothingResurrected(d, before);
      NothingResurrectedSplits(d, events, n);
      SurvivesCrashesSplits(d, events, n);
      if NothingResurrected(d, before) {
        LastStepSurvivesIff(d, events, n);
      }
    }
  }

  lemma NothingResurrectedSplits(d: Disk, events: seq<Event>, n: nat)
    requires |events| == n + 1
    ensures NothingResurrected(d, events) <==> NothingResurrected(d, events[..n]) && !Resurrects(Run(d, events[..n]), events[n])
  {
    assert forall k :: 0 <= k < n ==> events[..n][..k] == events[..k] && events[..n][k] == events[k];
    if NothingResurrected(d, events) {
      forall k | 0 <= k < n ensures !Resurrects(Run(d, events[..n][..k]), events[..n][k]) {
        assert !Resurrects(Run(d, events[..k]), events[k]);
      }
    }
    if NothingResurrected(d, events[..n]) && !Resurrects(Run(d, events[..n]), events[n]) {
      forall k | 0 <= k <= n ensures !Resurrects(Run(d, events[..k]), events[k]) {
        if k < n { assert !Resurrects(Run(d, events[..n][..k]), events[..n][k]); }
      }
    }
  }

  lemma SurvivesCrashesSplits(d: Disk, events: seq<Event>, n: nat)
    requires |events| == n + 1
    ensures SurvivesCrashes(d, events) <==> SurvivesCrashes(d, events[..n]) && Survives(d, events)
  {
    assert events[..n + 1] == events;
    assert forall k :: 0 <= k <= n ==> events[..n][..k] == events[..k];
    if SurvivesCrashes(d, events) {
      assert Survives(d, events[..n + 1]);
      forall k | 0 <= k <= n ensures Survives(d, events[..n][..k]) {
        assert Survives(d, events[..k]);
      }
    }
    if SurvivesCrashes(d, events[..n]) && Survives(d, events) {
      forall k | 0 <= k <= n + 1 ensures Survives(d, events[..k]) {
        if k <= n { assert Survives(d, events[..n][..k]); }
      }
    }
  }

  lemma LastStepSurvivesIff(d: Disk, events: seq<Event>, n: nat)
    requires Settled(d) && |events| == n + 1 && NothingResurrected(d, events[..n])
    ensures Survives(d, events) <==> !Resurrects(Run(d, events[..n]), events[n])
  {
    RefinesPlainMap(d, events[..n]);
    var was := Run(d, events[..n]);
    NextRefines(was, events[n]);
    CrashShowsUnsettled(Run(d, events));
    assert forall lasts: bool :: CrashedAfter(d, events, lasts) == Contents(Crashed(Run(d, events), lasts));
  }

  /** Once a reopen has had power for the whole journal, the imagined map is on disk and the store is ready. */
  lemma UninterruptedReopenRestores(d: Disk, events: seq<Event>, power: nat)
    requires Settled(d) && NothingResurrected(d, events)
    requires Run(d, events).journal.Present? ==> power >= |Run(d, events).journal.mutations| + 2
    ensures var (d', r) := Reopened(Run(d, events), power);
      r == Ok(()) && !d'.journal.Present? && d'.files == ImaginedRun(d, events)
  {
    RefinesPlainMap(d, events);
    if Run(d, events).journal.Present? {
      FinishPreserves(Run(d, events), power);
    }
  }

  /** For instance: a batch writes a key and only its last sync fails, the key is deleted, and a crash brings it back. */
  lemma DeletedKeyComesBack(files: Files, key: Bytes, value: Bytes)
    ensures var events := [Batch([Mutation.Put(key, value)], 2 + 1), Single(Mutation.Delete(key), 1), Crash(false), Reopen(3)];
      var d := Disk(files, Gone);
      key in Run(d, events).files && key !in ImaginedRun(d, events)
  {
    var d := Disk(files, Gone);
    var put: seq<Write> := [Mutation.Put(key, value)];
    var events := [Batch(put, 2 + 1), Single(Mutation.Delete(key), 1), Crash(false), Reopen(3)];
    assert put[..0] == [] && put[..1] == put && ApplyAll(files, put) == files[key := value];
    assert events[..4] == events && events[..3][..2] == events[..2] && events[..2][..1] == events[..1] && events[..1][..0] == [];
    assert events[..4][..3] == events[..3];
    assert Run(d, events[..1]) == Disk(files[key := value], Unsynced(put));
    assert Run(d, events[..2]) == Disk(files[key := value] - {key}, Unsynced(put));
    assert Run(d, events[..3]) == Disk(files[key := value] - {key}, Present(put));
    assert ApplyAll(files[key := value] - {key}, put) == (files[key := value] - {key})[key := value];
    assert key !in ImaginedRun(d, events[..2]);
  }

  // ----- the store -----

  class FileStore {
    var files: Files
    var journal: Journal
    var power: nat

    function State(): Disk
      reads this
    {
      Disk(files, journal)
    }

    /** `open`: takes over the files found on disk and replays a journal left there. */
    constructor Open(disk: Disk, power: nat)
      ensures State() == Reopened(disk, power).0
    {
      files, journal, this.power := disk.files, disk.journal, power;
      new;
      var recovered := RecoverTransaction();
    }

    method Operation() returns (ok: bool)
      modifies this`power
      ensures ok <==> old(power) > 0
      ensures power == if ok then old(power) - 1 else 0
    {
      ok := power > 0;
      if ok {
        power := power - 1;
      }
    }

    method MutateRaw(m: Write) returns (ok: bool)
      modifies this
      ensures journal == if ok && m.Put? && old(journal).Unsynced? then Gone else old(journal)
      ensures ok <==> old(power) > 0
      ensures power == if ok then old(power) - 1 else 0
      ensures files == if ok then Applied(old(files), m) else old(files)
    {
      ok := Operation();
      if ok {
        match m {
          case Put(key, value) =>
            files := files[key := value];
            if journal.Unsynced? {
              journal := Gone;
            }
          case Delete(key) => files := files - {key};
        }
      }
    }

    method Apply(ms: seq<Write>) returns (ok: bool)
      requires journal.Present?
      modifies this
      ensures journal == old(journal)
      ensures ok <==> |ms| <= old(power)
      ensures power == if ok then old(power) - |ms| else 0
      ensures files == ApplyAll(old(files), if ok then ms else ms[..old(power)])
    {
      var i := 0;
      while i < |ms|
        invariant 0 <= i <= |ms| && i <= old(power)
        invariant journal == old(journal)
        invariant power == old(power) - i
        invariant files == ApplyAll(old(files), ms[..i])
      {
        assert ms[..i + 1][..i] == ms[..i];
        ok := MutateRaw(ms[i]);
        if !ok {
          return;
        }
        i := i + 1;
      }
      assert ms[..|ms|] == ms;
      ok := true;
    }

    /** Unlink the journal, then sync the directory; a failed sync leaves the unlink unsynced. */
    method FinishTransaction() returns (ok: bool)
      requires journal.Present?
      modifies this
      ensures files == old(files)
      ensures ok <==> old(power) >= 2
      ensures journal == if ok then Gone else if old(power) == 1 then Unsynced(old(journal).mutations) else old(journal)
    {
      ok := Operation();
      if !ok {
        return;
      }
      journal := Unsynced(journal.mutations);
      ok := Operation();
      if ok {
        journal := Gone;
      }
    }

    method RecoverTransaction() returns (r: Result<(), Error>)
      modifies this
      ensures (State(), r) == Reopened(old(State()), old(power))
      ensures r == Ok(()) <==> old(journal).Present? ==> old(power) >= |old(journal).mutations| + 2
      ensures r == Ok(()) ==> !journal.Present? && files == Contents(old(State()))
    {
      if !journal.Present? {
        return Ok(());
      }
      var mutations := journal.mutations;
      var ok := Apply(mutations);
      if ok {
        ok := FinishTransaction();
      }
      assert mutations[..|mutations|] == mutations;
      r := if ok then Ok(()) else Err(Interrupted);
    }

    method Get(key: Bytes) returns (r: Result<Option<Bytes>, Error>)
      ensures r == if journal.Present? then Err(RecoveryRequired) else Ok(Lookup(files, key))
    {
      if journal.Present? {
        return Err(RecoveryRequired);
      }
      r := Ok(if key in files then Some(files[key]) else None);
    }

    method Mutate(m: Write) returns (r: Result<(), Error>)
      modifies this
      ensures (State(), r) == Wrote(old(State()), m, old(power))
      ensures r == Err(RecoveryRequired) <==> old(journal).Present?
      ensures r == Ok(()) <==> !old(journal).Present? && old(power) >= 1
      ensures r.Err? ==> State() == old(State())
      ensures r.Ok? && m.Put? ==> files == old(files)[m.key := m.value]
      ensures r.Ok? && m.Delete? ==> files == old(files) - {m.key}
    {
      if journal.Present? {
        return Err(RecoveryRequired);
      }
      var ok := MutateRaw(m);
      r := if ok then Ok(()) else Err(Interrupted);
    }

    method ApplyBatch(ms: seq<Write>) returns (r: Result<(), Error>)
      modifies this
      ensures (State(), r) == Batched(old(State()), ms, old(power))
      ensures r == Err(RecoveryRequired) <==> old(journal).Present?
      ensures r == Ok(()) <==> !old(journal).Present? && (ms == [] || old(power) >= |ms| + 3)
      ensures r == Ok(()) ==> files == ApplyAll(old(files), ms) && !journal.Present?
      ensures !old(journal).Present? && old(power) == 0 ==> State() == old(State())
    {
      if journal.Present? {
        return Err(RecoveryRequired);
      }
      if ms == [] {
        return Ok(());
      }
      var ok := Operation();
      if !ok {
        return Err(Interrupted);
      }
      journal := Present(ms);
      ok := Apply(ms);
      if ok {
        ok := FinishTransaction();
      }
      assert ms[..|ms|] == ms;
      r := if ok then Ok(()) else Err(Interrupted);
    }
  }

  // ----- transactions -----

  type Changes = map<Bytes, Option<Bytes>>

  /** The staged view: a change hides the stored value, an absent change shows it. */
  function Overlay(f: Files, changes: Changes): Files {
    map key | key in f.Keys + changes.Keys && (key in changes ==> changes[key].Some?)
      :: if key in changes then changes[key].value else f[key]
  }

  /** The mutations of a commit: one per staged key, in whatever order the keys are walked. */
  ghost predicate Lists(ms: seq<Write>, changes: Changes) {
    && (forall i :: 0 <= i < |ms| ==> ms[i].key in changes && Effect(ms[i]) == changes[ms[i].key])
    && (forall key :: key in changes ==> exists i :: 0 <= i < |ms| && ms[i].key == key)
  }

  lemma CommittedChangesAreTheOverlay(f: Files, ms: seq<Write>, changes: Changes)
    requires Lists(ms, changes)
    ensures ApplyAll(f, ms) == Overlay(f, changes)
  {
    forall key ensures Lookup(ApplyAll(f, ms), key) == Lookup(Overlay(f, changes), key) {
      LastMutationDecides(f, ms, key);
      if key in changes {
        var i :| 0 <= i < |ms| && ms[i].key == key;
        assert LastUse(ms, key) > i;
      }
    }
    SameLookups(ApplyAll(f, ms), Overlay(f, changes));
  }

  class FileTransaction {
    const store: FileStore
    var changes: Changes

    constructor (store: FileStore)
      ensures this.store == store && changes == map[]
    {
      this.store, changes := store, map[];
    }

    method Get(key: Bytes) returns (r: Result<Option<Bytes>, Error>)
      ensures !store.journal.Present? ==> r == Ok(Lookup(Overlay(store.files, changes), key))
      ensures store.journal.Present? ==> r == if key in changes then Ok(changes[key]) else Err(RecoveryRequired)
    {
      if key in changes {
        r := Ok(changes[key]);
      } else {
        r := store.Get(key);
      }
    }

    method Put(key: Bytes, value: Bytes)
      modifies this
      ensures forall f :: Overlay(f, changes) == Applied(Overlay(f, old(changes)), Mutation.Put(key, value))
    {
      changes := changes[key := Some(value)];
    }

    method Delete(key: Bytes)
      modifies this
      ensures forall f :: Overlay(f, changes) == Applied(Overlay(f, old(changes)), Mutation.Delete(key))
    {
      changes := changes[key := None];
    }

    method ApplyBatch(ms: seq<Write>)
      modifies this
      ensures forall f :: Overlay(f, changes) == ApplyAll(Overlay(f, old(changes)), ms)
    {
      var i := 0;
      while i < |ms|
        invariant 0 <= i <= |ms|
        invariant forall f :: Overlay(f, changes) == ApplyAll(Overlay(f, old(changes)), ms[..i])
      {
        assert ms[..i + 1][..i] == ms[..i];
        match ms[i] {
          case Put(key, value) => Put(key, value);
          case Delete(key) => Delete(key);
        }
        i := i + 1;
      }
      assert ms[..|ms|] == ms;
    }

    /**
     All staged changes or none, and all exactly when the journal was written; a commit
     that reports success leaves the staged view on disk.
     */
    method Commit() returns (r: Result<(), Error>)
      modifies store
      ensures old(store.journal).Present? ==> r == Err(RecoveryRequired) && store.State() == old(store.State())
      ensures !old(store.journal).Present? ==>
                Contents(store.State()) ==
                  if old(store.power) > 0 then Overlay(old(store.files), changes) else old(store.files)
      ensures r.Ok? ==> store.files == Overlay(old(store.files), changes) && !store.journal.Present?
      ensures r.Ok? && changes != map[] ==> store.journal == Gone
      ensures !old(store.journal).Present? && changes == map[] ==> r.Ok?
    {
      if store.journal.Present? {
        return Err(RecoveryRequired);
      }
      var mutations: seq<Write> := [];
      var rest := changes.Keys;
      while rest != {}
        invariant rest <= changes.Keys
        invariant forall i :: 0 <= i < |mutations| ==>
                    mutations[i].key in changes && Effect(mutations[i]) == changes[mutations[i].key]
        invariant forall key :: key in changes && key !in rest ==> exists i :: 0 <= i < |mutations| && mutations[i].key == key
        invariant changes == map[] ==> mutations == []
        decreases rest
      {
        var key :| key in rest;
        var mutation := if changes[key].Some? then Mutation.Put(key, changes[key].value) else Mutation.Delete(key);
        ghost var before := mutations;
        mutations := mutations + [mutation];
        rest := rest - {key};
        assert mutations[|before|].key == key;
        forall k | k in changes && k !in rest ensures exists i :: 0 <= i < |mutations| && mutations[i].key == k {
          if k != key {
            var i :| 0 <= i < |before| && before[i].key == k;
            assert mutations[i].key == k;
          }
        }
      }
      CommittedChangesAreTheOverlay(store.files, mutations, changes);
      BatchIsAtomic(store.State(), mutations, store.power);
      r := store.ApplyBatch(mutations);
    }
  }
}
