/** What the outcome of a finished request means over whole runs, and that a request left alone comes to one. */
module PublishOutcomes {
  import opened Common
  import opened Publish

  // ----- what outcomes mean -----

  /** The blob was the current one at some point of the run at which the request had arrived. */
  ghost predicate BeenCurrent(s: Registry, events: seq<Event>, i: nat, a: Account, b: Blob) {
    exists k :: 0 <= k <= |events| && CurrentAt(s, events[..k], i, a, b)
  }

  predicate CurrentAt(s: Registry, events: seq<Event>, i: nat, a: Account, b: Blob) {
    i < |Run(s, events).requests| && Current(Run(s, events), a) == Some(b)
  }

  /** Past its swap, or reporting success. */
  predicate Installed(pc: Pc) {
    pc.RemoveReplaced? || pc == Finished(Published) || pc == RemoveOwn(Published)
  }

  lemma BeenCurrentGrows(s: Registry, events: seq<Event>, i: nat, a: Account, b: Blob)
    requires events != [] && BeenCurrent(s, events[..|events| - 1], i, a, b)
    ensures BeenCurrent(s, events, i, a, b)
  {
    var n := |events| - 1;
    var k :| 0 <= k <= n && CurrentAt(s, events[..n][..k], i, a, b);
    assert events[..n][..k] == events[..k];
  }

  /** Only its own swap takes a request past it, and makes its upload current. */
  lemma InstalledStep(s: Registry, e: Event, i: nat)
    requires i < |Next(s, e).requests| && Installed(Next(s, e).requests[i].pc)
    ensures i < |s.requests| && Next(s, e).requests[i].account == s.requests[i].account && Next(s, e).requests[i].task == s.requests[i].task
    ensures Installed(s.requests[i].pc)
            || (s.requests[i].task.Upload? && Current(Next(s, e), s.requests[i].account) == Some(s.requests[i].task.blob))
  {
    if e.Advance? && e.request < |s.requests| {
      OthersKeepTheirPlace(s, e.request, e.request);
      if i < |s.requests| { OthersKeepTheirPlace(s, e.request, i); }
      if e.request == i { InstalledAdvance(s, i); }
    }
  }

  lemma TaskKept(s: Registry, i: nat)
    requires i < |s.requests|
    ensures |Advanced(s, i).requests| == |s.requests| && Advanced(s, i).requests[i].task == s.requests[i].task
  {
    match s.requests[i].pc
    case Swap(_) =>
    case ReadFile(_) =>
    case Recheck(_) =>
    case _ =>
  }

  lemma SwapInstalls(s: Registry, i: nat)
    requires i < |s.requests| && s.requests[i].pc.Swap? && s.requests[i].task.Upload?
    requires Installed(Advanced(s, i).requests[i].pc)
    ensures Current(Advanced(s, i), s.requests[i].account) == Some(s.requests[i].task.blob)
  {
  }

  lemma OthersDoNotInstall(s: Registry, i: nat)
    requires i < |s.requests| && !(s.requests[i].pc.Swap? && s.requests[i].task.Upload?) && !Installed(s.requests[i].pc)
    ensures !Installed(Advanced(s, i).requests[i].pc)
  {
    match s.requests[i].pc
    case ReadFile(_) =>
    case Recheck(_) =>
    case _ =>
  }

  lemma InstalledAdvance(s: Registry, i: nat)
    requires i < |s.requests| && Installed(Advanced(s, i).requests[i].pc)
    ensures Advanced(s, i).requests[i].task == s.requests[i].task
    ensures Installed(s.requests[i].pc)
            || (s.requests[i].task.Upload? && Current(Advanced(s, i), s.requests[i].account) == Some(s.requests[i].task.blob))
  {
    TaskKept(s, i);
    if s.requests[i].pc.Swap? && s.requests[i].task.Upload? {
      SwapInstalls(s, i);
    } else if !Installed(s.requests[i].pc) {
      OthersDoNotInstall(s, i);
    }
  }

  lemma {:induction false} InstalledWasCurrent(s: Registry, events: seq<Event>, i: nat)
    requires |s.requests| <= i < |Run(s, events).requests| && Installed(Run(s, events).requests[i].pc)
    ensures var q := Run(s, events).requests[i];
      q.task.Upload? && BeenCurrent(s, events, i, q.account, q.task.blob)
    decreases |events|
  {
    var n := |events| - 1;
    var was := Run(s, events[..n]);
    InstalledStep(was, events[n], i);
    if Installed(was.requests[i].pc) {
      InstalledWasCurrent(s, events[..n], i);
      BeenCurrentGrows(s, events, i, was.requests[i].account, was.requests[i].task.blob);
    } else {
      assert events[..n + 1] == events;
      assert CurrentAt(s, events[..n + 1], i, was.requests[i].account, was.requests[i].task.blob);
    }
  }

  /**
   In every run, for an account with its secret stored: an upload that reports success was the
   current record after it arrived, one that reports a refusal is signed by another wallet or beaten
   by the current record, and a read returns nothing or a record that was current.
   */
  lemma OutcomesMean(recovery: map<Account, Wallet>, events: seq<Event>, i: nat)
    requires i < |Run(Init(recovery), events).requests|
    requires Run(Init(recovery), events).requests[i].account in recovery
    ensures var s := Run(Init(recovery), events);
      var q := s.requests[i];
      && (q.pc == Finished(Published) ==> q.task.Upload? && BeenCurrent(Init(recovery), events, i, q.account, q.task.blob))
      && (q.pc == Finished(Refused) ==>
            && q.task.Upload?
            && (recovery[q.account] != q.task.blob.record.wallet
                || (q.account in s.pointer
                    && (Fresher(s.pointer[q.account].record.version, q.task.blob.record.version)
                        || (s.pointer[q.account].record.version == q.task.blob.record.version && s.pointer[q.account] != q.task.blob)))))
      && (q.pc.Finished? && q.pc.outcome.Loaded? && q.pc.outcome.found.Some? ==>
            q.task.Read? && q.account in s.pointer && AtLeast(s.pointer[q.account], q.pc.outcome.found.value))
      && q.pc != Finished(MissingBlob)
  {
    var a := Run(Init(recovery), events).requests[i].account;
    PointerAlwaysResolves(Init(recovery), a, events);
    assert RequestOk(Run(Init(recovery), events), Run(Init(recovery), events).requests[i]);
    RecoveryWrittenOnce(Init(recovery), events, a);
    if Run(Init(recovery), events).requests[i].pc == Finished(Published) {
      InstalledWasCurrent(Init(recovery), events, i);
    }
  }

  lemma {:induction false} RecoveryWrittenOnce(s: Registry, events: seq<Event>, a: Account)
    requires Inv(s, a)
    ensures a in Run(s, events).recovery && Run(s, events).recovery[a] == s.recovery[a]
    decreases |events|
  {
    if events != [] {
      var n := |events| - 1;
      RecoveryWrittenOnce(s, events[..n], a);
      PointerAlwaysResolves(s, a, events[..n]);
      NextKeeps(Run(s, events[..n]), a, events[n]);
    }
  }

  // ----- requests that nobody interferes with -----

  function Times(s: Registry, i: nat, n: nat): Registry
    decreases n
  {
    if n == 0 then s else Times(Next(s, Advance(i)), i, n - 1)
  }

  /** How an upload that nobody interferes with must end. */
  function Verdict(s: Registry, a: Account, b: Blob): Outcome
    requires a in s.recovery
  {
    if s.recovery[a] != b.record.wallet || (a in s.pointer && Beats(s.pointer[a], b)) then Refused
    else if UserOf(b.record.wallet) in s.users && s.users[UserOf(b.record.wallet)] != a then UserIdTaken
    else Published
  }

  lemma {:induction false} First(s: Registry, i: nat, n: nat)
    requires i < |s.requests| && n > 0
    ensures Times(s, i, n) == Times(Advanced(s, i), i, n - 1)
  {
  }

  lemma {:induction false} FinishedStays(s: Registry, i: nat, n: nat)
    requires i < |s.requests| && s.requests[i].pc.Finished?
    ensures Times(s, i, n) == s
  {
    if n > 0 { FinishedStays(s, i, n - 1); }
  }

  /** The registry once the upload's file is written and its signer checked. */
  function Uploaded(s: Registry, a: Account, b: Blob): Registry
    requires a in s.recovery
  {
    s.(files := s.files + {(a, b)},
       requests := s.requests + [Request(a, Upload(b), if s.recovery[a] == b.record.wallet then ReadPointer else RemoveOwn(Refused))])
  }

  lemma FirstUploadSteps(s: Registry, i: nat, a: Account, b: Blob)
    requires i < |s.requests| && s.requests[i].account == a && s.requests[i].task == Upload(b) && a in s.recovery
    ensures s.requests[i].pc.WriteFile? ==> Advanced(s, i) == At(s.(files := s.files + {(a, b)}), i, LoadRecovery)
    ensures s.requests[i].pc.LoadRecovery? ==>
              Advanced(s, i) == At(s, i, if s.recovery[a] == b.record.wallet then ReadPointer else RemoveOwn(Refused))
  {
  }

  lemma {:induction false} UploadChecked(s: Registry, a: Account, b: Blob, n: nat)
    requires a in s.recovery && n >= 2
    ensures Times(Next(s, Arrive(a, Upload(b))), |s.requests|, n) == Times(Uploaded(s, a, b), |s.requests|, n - 2)
  {
    var i := |s.requests|;
    var s0 := Next(s, Arrive(a, Upload(b)));
    var s1 := At(s0.(files := s.files + {(a, b)}), i, LoadRecovery);
    FirstUploadSteps(s0, i, a, b);
    First(s0, i, n);
    FirstUploadSteps(s1, i, a, b);
    First(s1, i, n - 1);
    assert Advanced(s1, i) == Uploaded(s, a, b);
  }

  lemma ComparedMeans(current: Blob, b: Blob)
    requires current.record.wallet == b.record.wallet
    ensures Compare(Upload(b), current) == if Beats(current, b) then RemoveOwn(Refused) else Swap(Some(current))
  {
  }

  lemma PointerRead(s: Registry, i: nat, a: Account, b: Blob)
    requires i < |s.requests| && s.requests[i] == Request(a, Upload(b), ReadPointer)
    ensures Advanced(s, i) == At(s, i, if a in s.pointer then ReadFile(s.pointer[a]) else Swap(None))
  {
  }

  lemma FileRead(s: Registry, i: nat, a: Account, b: Blob)
    requires i < |s.requests| && a in s.pointer && (a, s.pointer[a]) in s.files
    requires s.requests[i] == Request(a, Upload(b), ReadFile(s.pointer[a]))
    ensures Advanced(s, i) == At(s, i, Compare(Upload(b), s.pointer[a]))
  {
  }

  lemma {:induction false} AfterPointerRead(s: Registry, i: nat, a: Account, b: Blob, n: nat)
    requires i < |s.requests| && s.requests[i] == Request(a, Upload(b), ReadPointer) && n > 0
    ensures Times(s, i, n) == Times(At(s, i, if a in s.pointer then ReadFile(s.pointer[a]) else Swap(None)), i, n - 1)
  {
    PointerRead(s, i, a, b);
    First(s, i, n);
  }

  lemma {:induction false} AfterFileRead(s: Registry, i: nat, a: Account, b: Blob, n: nat)
    requires i < |s.requests| && a in s.pointer && (a, s.pointer[a]) in s.files && n > 0
    requires s.requests[i] == Request(a, Upload(b), ReadFile(s.pointer[a]))
    ensures Times(s, i, n) == Times(At(s, i, Compare(Upload(b), s.pointer[a])), i, n - 1)
  {
    FileRead(s, i, a, b);
    First(s, i, n);
  }

  lemma {:induction false} UploadCompared(s: Registry, i: nat, a: Account, b: Blob, n: nat)
    requires i < |s.requests| && s.requests[i] == Request(a, Upload(b), ReadPointer) && a in s.pointer && n >= 2
    requires (a, s.pointer[a]) in s.files && s.pointer[a].record.wallet == b.record.wallet
    ensures Times(s, i, n) == Times(At(s, i, if Beats(s.pointer[a], b) then RemoveOwn(Refused) else Swap(Some(s.pointer[a]))), i, n - 2)
  {
    var c := s.pointer[a];
    var s1 := At(s, i, ReadFile(c));
    AfterPointerRead(s, i, a, b, n);
    AfterFileRead(s1, i, a, b, n - 1);
    ComparedMeans(c, b);
    assert At(s1, i, Compare(Upload(b), c)) == At(s, i, Compare(Upload(b), c));
  }

  lemma {:induction false} RefusalEnds(s: Registry, i: nat, a: Account, b: Blob, n: nat)
    requires i < |s.requests| && s.requests[i] == Request(a, Upload(b), RemoveOwn(Refused)) && n > 0
    ensures Times(s, i, n) == s.(files := s.files - {(a, b)}, requests := s.requests[i := Request(a, Upload(b), Finished(Refused))])
  {
    var s' := s.(files := s.files - {(a, b)}, requests := s.requests[i := Request(a, Upload(b), Finished(Refused))]);
    OwnFileRemoved(s, i, a, b);
    First(s, i, n);
    FinishedStays(s', i, n - 1);
  }

  lemma OwnFileRemoved(s: Registry, i: nat, a: Account, b: Blob)
    requires i < |s.requests| && s.requests[i] == Request(a, Upload(b), RemoveOwn(Refused))
    ensures Advanced(s, i) == s.(files := s.files - {(a, b)}, requests := s.requests[i := Request(a, Upload(b), Finished(Refused))])
  {
  }

  predicate Taken(s: Registry, a: Account, b: Blob) {
    UserOf(b.record.wallet) in s.users && s.users[UserOf(b.record.wallet)] != a
  }

  lemma {:induction false} TakenEnds(s: Registry, i: nat, a: Account, b: Blob, n: nat)
    requires i < |s.requests| && s.requests[i] == Request(a, Upload(b), Swap(Current(s, a))) && Taken(s, a, b) && n > 0
    ensures Times(s, i, n) == At(s, i, Finished(UserIdTaken))
  {
    First(s, i, n);
    FinishedStays(At(s, i, Finished(UserIdTaken)), i, n - 1);
  }

  lemma {:induction false} SwapEnds(s: Registry, i: nat, a: Account, b: Blob, n: nat)
    requires i < |s.requests| && s.requests[i] == Request(a, Upload(b), Swap(Current(s, a))) && !Taken(s, a, b) && n > 1
    ensures var s' := Times(s, i, n);
      && s'.requests == s.requests[i := Request(a, Upload(b), Finished(Published))]
      && s'.pointer == s.pointer[a := b]
      && s'.files == if Current(s, a).None? || Current(s, a) == Some(b) then s.files else s.files - {(a, s.pointer[a])}
  {
    First(s, i, n);
    var s1 := Advanced(s, i);
    assert s1.requests[i] == Request(a, Upload(b), RemoveReplaced(Current(s, a))) && s1.files == s.files && s1.pointer == s.pointer[a := b];
    First(s1, i, n - 1);
    FinishedStays(Advanced(s1, i), i, n - 2);
  }

  /** The registry after an upload ran by itself: published as its record deserves, and nothing else changed. */
  predicate EndsAlone(s: Registry, a: Account, b: Blob, s': Registry)
    requires a in s.recovery
  {
    var verdict := Verdict(s, a, b);
    && s'.requests == s.requests + [Request(a, Upload(b), Finished(verdict))]
    && s'.pointer == (if verdict == Published then s.pointer[a := b] else s.pointer)
    && (verdict == Published ==>
          s'.files == (s.files - (if a in s.pointer && s.pointer[a] != b then {(a, s.pointer[a])} else {})) + {(a, b)})
    && (verdict == Refused ==> s'.files == s.files - {(a, b)})
  }

  lemma {:induction false} ForeignUploadAlone(s: Registry, a: Account, b: Blob, n: nat)
    requires a in s.recovery && s.recovery[a] != b.record.wallet && n > 0
    ensures EndsAlone(s, a, b, Times(Uploaded(s, a, b), |s.requests|, n))
  {
    RefusalEnds(Uploaded(s, a, b), |s.requests|, a, b, n);
    assert Uploaded(s, a, b).files - {(a, b)} == s.files - {(a, b)};
  }

  lemma {:induction false} CheckedUploadAlone(s: Registry, a: Account, b: Blob, n: nat)
    requires Inv(s, a) && s.recovery[a] == b.record.wallet && n >= 4
    ensures EndsAlone(s, a, b, Times(Uploaded(s, a, b), |s.requests|, n))
  {
    var i := |s.requests|;
    var s2 := Uploaded(s, a, b);
    var left := if a in s.pointer then n - 2 else n - 1;
    if a in s.pointer {
      UploadCompared(s2, i, a, b, n);
    } else {
      AfterPointerRead(s2, i, a, b, n);
    }
    if a in s.pointer && Beats(s.pointer[a], b) {
      RefusalEnds(At(s2, i, RemoveOwn(Refused)), i, a, b, left);
      assert s2.files - {(a, b)} == s.files - {(a, b)};
    } else if Taken(s, a, b) {
      TakenEnds(At(s2, i, Swap(Current(s2, a))), i, a, b, left);
    } else {
      SwapEnds(At(s2, i, Swap(Current(s2, a))), i, a, b, left);
    }
  }

  /**
   An upload that runs by itself finishes within six steps, and exactly as its record deserves: it is
   published unless it is signed by another wallet, beaten, or its user id is taken.
   */
  lemma {:induction false} UploadAlone(s: Registry, a: Account, b: Blob, n: nat)
    requires Inv(s, a) && n >= 6
    ensures EndsAlone(s, a, b, Times(Next(s, Arrive(a, Upload(b))), |s.requests|, n))
  {
    UploadChecked(s, a, b, n);
    if s.recovery[a] != b.record.wallet {
      ForeignUploadAlone(s, a, b, n - 2);
    } else {
      CheckedUploadAlone(s, a, b, n - 2);
    }
  }

  lemma ReadSteps(s: Registry, i: nat, a: Account)
    requires i < |s.requests| && s.requests[i].account == a && s.requests[i].task.Read?
    ensures s.requests[i].pc.WriteFile? ==> Advanced(s, i) == At(s, i, ReadPointer)
    ensures s.requests[i].pc.ReadPointer? ==>
              Advanced(s, i) == At(s, i, if a in s.pointer then ReadFile(s.pointer[a]) else Finished(Loaded(None)))
    ensures s.requests[i].pc.ReadFile? && (a, s.requests[i].pc.at) in s.files ==>
              Advanced(s, i) == At(s, i, Finished(Loaded(Some(s.requests[i].pc.at))))
  {
  }

  lemma {:induction false} AfterRead(s: Registry, i: nat, a: Account, next: Registry, n: nat)
    requires i < |s.requests| && s.requests[i].account == a && s.requests[i].task.Read? && n > 0
    requires Advanced(s, i) == next
    ensures Times(s, i, n) == Times(next, i, n - 1)
  {
    First(s, i, n);
  }

  /** A read that runs by itself returns the current record within three steps. */
  lemma {:induction false} ReadAlone(s: Registry, a: Account, n: nat)
    requires Inv(s, a) && n >= 3
    ensures Times(Next(s, Arrive(a, Read)), |s.requests|, n) ==
            s.(requests := s.requests + [Request(a, Read, Finished(Loaded(Current(s, a))))])
  {
    var i := |s.requests|;
    var s0 := s.(requests := s.requests + [Request(a, Read, WriteFile)]);
    var s1, done := At(s0, i, ReadPointer), At(s0, i, Finished(Loaded(Current(s, a))));
    ReadSteps(s0, i, a);
    AfterRead(s0, i, a, s1, n);
    ReadSteps(s1, i, a);
    if a in s.pointer {
      var s2 := At(s0, i, ReadFile(s.pointer[a]));
      AfterRead(s1, i, a, s2, n - 1);
      ReadSteps(s2, i, a);
      AfterRead(s2, i, a, done, n - 2);
      FinishedStays(done, i, n - 3);
    } else {
      AfterRead(s1, i, a, done, n - 1);
      FinishedStays(done, i, n - 2);
    }
  }

  /** A read of a reference that has lost its file reports the missing bytes instead of retrying for ever. */
  lemma {:induction false} DanglingIsReported(s: Registry, a: Account, n: nat)
    requires Dangling(s, a) && n >= 4
    ensures Times(Next(s, Arrive(a, Read)), |s.requests|, n) ==
            s.(requests := s.requests + [Request(a, Read, Finished(MissingBlob))])
  {
    var i := |s.requests|;
    var c := s.pointer[a];
    var s0 := Next(s, Arrive(a, Read));
    ReadSteps(s0, i, a);
    First(s0, i, n);
    var s1 := At(s0, i, ReadPointer);
    ReadSteps(s1, i, a);
    First(s1, i, n - 1);
    var s2 := At(s1, i, ReadFile(c));
    MissingSteps(s2, i, a);
    First(s2, i, n - 2);
    var s3 := At(s2, i, Recheck(c));
    MissingSteps(s3, i, a);
    First(s3, i, n - 3);
    FinishedStays(At(s3, i, Finished(MissingBlob)), i, n - 4);
  }

  lemma MissingSteps(s: Registry, i: nat, a: Account)
    requires i < |s.requests| && s.requests[i].account == a && s.requests[i].task.Read? && Dangling(s, a)
    ensures s.requests[i].pc == ReadFile(s.pointer[a]) ==> Advanced(s, i) == At(s, i, Recheck(s.pointer[a]))
    ensures s.requests[i].pc == Recheck(s.pointer[a]) ==> Advanced(s, i) == At(s, i, Finished(MissingBlob))
  {
  }
}
