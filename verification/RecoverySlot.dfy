/**
 The recovery slot of one account: concurrent `put_recovery` requests seal their secret
 under a random nonce, write the sealed file and try to install it in the empty slot.
 The first success is final. This is what lets record publication read the recovery
 wallet as a value that is written at most once.
 */
module RecoverySlot {
  /** A sealed blob opens to exactly one secret; `nonce` tells apart sealings of one secret. */
  datatype Sealed = Sealed(secret: nat, nonce: nat)

  datatype Slot = Empty | Holds(sealed: Sealed)

  datatype Outcome = Stored(sealed: Sealed) | Refused | MissingBlob | Died

  datatype Pc =
    | WriteFile
    | ReadPointer
    | ReadFile(at: Sealed)
    | Recheck(at: Sealed)
    | Swap
    | RemoveOwn(outcome: Outcome)
    | Finished(outcome: Outcome)

  datatype Request = Request(own: Sealed, pc: Pc)

  datatype State = State(files: set<Sealed>, slot: Slot, requests: seq<Request>)

  datatype Event = Arrive(own: Sealed) | Advance(request: nat) | Die(request: nat)

  function At(s: State, i: nat, pc: Pc): State
    requires i < |s.requests|
  {
    s.(requests := s.requests[i := s.requests[i].(pc := pc)])
  }

  function Opened(own: Sealed, current: Sealed): Pc {
    if current.secret != own.secret then RemoveOwn(Refused)
    else if current != own then RemoveOwn(Stored(current))
    else Finished(Stored(current))
  }

  function Advanced(s: State, i: nat): State
    requires i < |s.requests|
  {
    var own := s.requests[i].own;
    match s.requests[i].pc
    case WriteFile => At(s.(files := s.files + {own}), i, ReadPointer)
    case ReadPointer => At(s, i, if s.slot.Holds? then ReadFile(s.slot.sealed) else Swap)
    case ReadFile(c) => At(s, i, if c in s.files then Opened(own, c) else Recheck(c))
    case Recheck(c) => At(s, i, if s.slot == Holds(c) then Finished(MissingBlob) else ReadPointer)
    case Swap =>
      if s.slot.Empty? then At(s.(slot := Holds(own)), i, Finished(Stored(own))) else At(s, i, ReadPointer)
    case RemoveOwn(outcome) => At(s.(files := s.files - {own}), i, Finished(outcome))
    case Finished(_) => s
  }

  function Next(s: State, e: Event): State {
    match e
    case Arrive(own) => s.(requests := s.requests + [Request(own, WriteFile)])
    case Advance(i) => if i < |s.requests| then Advanced(s, i) else s
    case Die(i) =>
      if i < |s.requests| && !s.requests[i].pc.Finished? then At(s, i, Finished(Died)) else s
  }

  function Run(s: State, events: seq<Event>): State
    decreases |events|
  {
    if events == [] then s else Next(Run(s, events[..|events| - 1]), events[|events| - 1])
  }

  /** What a finished request reported is true of the slot, now and for ever. */
  predicate OutcomeOk(s: State, own: Sealed, outcome: Outcome) {
    match outcome
    case Stored(c) => s.slot == Holds(c) && c.secret == own.secret
    case Refused => s.slot.Holds? && s.slot.sealed.secret != own.secret
    case MissingBlob => false
    case Died => true
  }

  predicate RequestOk(s: State, q: Request) {
    match q.pc
    case WriteFile => true
    case ReadPointer => q.own in s.files || (s.slot.Holds? && s.slot.sealed != q.own)
    case ReadFile(c) => s.slot == Holds(c)
    case Recheck(c) => false
    case Swap => q.own in s.files || (s.slot.Holds? && s.slot.sealed != q.own)
    case RemoveOwn(outcome) => s.slot.Holds? && s.slot.sealed != q.own && OutcomeOk(s, q.own, outcome)
    case Finished(outcome) => OutcomeOk(s, q.own, outcome)
  }

  ghost predicate Inv(s: State) {
    && (s.slot.Holds? ==> s.slot.sealed in s.files)
    && (forall i :: 0 <= i < |s.requests| ==> RequestOk(s, s.requests[i]))
  }

  lemma StepKeeps(s: State, e: Event)
    requires Inv(s)
    ensures Inv(Next(s, e))
    ensures s.slot.Holds? ==> Next(s, e).slot == s.slot
  {
  }

  /**
   In every interleaving the slot is written at most once and its file never disappears; a
   request that reports success stored or found its own secret, one that reports a conflict
   lost to a different secret, and none reports missing bytes.
   */
  lemma {:induction false} FirstSecretWins(s: State, events: seq<Event>)
    requires Inv(s)
    ensures Inv(Run(s, events))
    ensures s.slot.Holds? ==> Run(s, events).slot == s.slot
    ensures forall i, j, c, c' | 0 <= i < |Run(s, events).requests| && 0 <= j < |Run(s, events).requests|
              && Run(s, events).requests[i].pc == Finished(Stored(c))
              && Run(s, events).requests[j].pc == Finished(Stored(c')) :: c == c'
    decreases |events|
  {
    if events != [] {
      FirstSecretWins(s, events[..|events| - 1]);
      StepKeeps(Run(s, events[..|events| - 1]), events[|events| - 1]);
    }
    var s' := Run(s, events);
    assert forall i :: 0 <= i < |s'.requests| ==> RequestOk(s', s'.requests[i]);
  }

  /** Every sealed file is the installed one or belongs to a request that has not finished or has died. */
  ghost predicate Clean(s: State) {
    forall c :: c in s.files && s.slot != Holds(c) ==>
      exists i :: 0 <= i < |s.requests| && s.requests[i].own == c
        && (s.requests[i].pc.Finished? ==> s.requests[i].pc == Finished(Died))
  }

  lemma {:induction false} NoSealedFileIsLeftBehind(s: State, events: seq<Event>)
    requires Inv(s) && Clean(s)
    ensures Inv(Run(s, events)) && Clean(Run(s, events))
    decreases |events|
  {
    if events != [] {
      var n := |events| - 1;
      NoSealedFileIsLeftBehind(s, events[..n]);
      StepKeeps(Run(s, events[..n]), events[n]);
      StepIsClean(Run(s, events[..n]), events[n]);
    }
  }

  lemma StepIsClean(s: State, e: Event)
    requires Inv(s) && Clean(s)
    ensures Clean(Next(s, e))
  {
    var s' := Next(s, e);
    forall c | c in s'.files && s'.slot != Holds(c)
      ensures exists i :: 0 <= i < |s'.requests| && s'.requests[i].own == c
                && (s'.requests[i].pc.Finished? ==> s'.requests[i].pc == Finished(Died))
    {
      if c in s.files {
        assert s.slot != Holds(c);
        var i :| 0 <= i < |s.requests| && s.requests[i].own == c
          && (s.requests[i].pc.Finished? ==> s.requests[i].pc == Finished(Died));
        assert RequestOk(s, s.requests[i]);
        assert s'.requests[i].own == c;
      } else {
        assert s'.requests[e.request].own == c;
      }
    }
  }

  function Times(s: State, i: nat, n: nat): State
    decreases n
  {
    if n == 0 then s else Times(Next(s, Advance(i)), i, n - 1)
  }

  lemma {:induction false} FinishedStays(s: State, i: nat, n: nat)
    requires i < |s.requests| && s.requests[i].pc.Finished?
    ensures Times(s, i, n) == s
  {
    if n > 0 { FinishedStays(s, i, n - 1); }
  }

  lemma {:induction false} First(s: State, i: nat, n: nat)
    requires i < |s.requests| && n > 0
    ensures Times(s, i, n) == Times(Advanced(s, i), i, n - 1)
  {
  }

  /** The state once the request's file is written and the slot read. */
  function SlotRead(s: State, own: Sealed): State {
    s.(files := s.files + {own},
       requests := s.requests + [Request(own, if s.slot.Holds? then ReadFile(s.slot.sealed) else Swap)])
  }

  lemma {:induction false} PutReadsSlot(s: State, own: Sealed, n: nat)
    requires n >= 2
    ensures Times(Next(s, Arrive(own)), |s.requests|, n) == Times(SlotRead(s, own), |s.requests|, n - 2)
  {
    var i := |s.requests|;
    var s0 := Next(s, Arrive(own));
    var s1 := s.(files := s.files + {own}, requests := s.requests + [Request(own, ReadPointer)]);
    assert Advanced(s0, i) == s1 && Advanced(s1, i) == SlotRead(s, own);
    First(s0, i, n);
    First(s1, i, n - 1);
  }

  lemma {:induction false} EmptySlotFilled(s: State, own: Sealed, n: nat)
    requires s.slot.Empty? && n >= 1
    ensures Times(SlotRead(s, own), |s.requests|, n) ==
            State(s.files + {own}, Holds(own), s.requests + [Request(own, Finished(Stored(own)))])
  {
    var s2, i := SlotRead(s, own), |s.requests|;
    var s3 := State(s.files + {own}, Holds(own), s.requests + [Request(own, Finished(Stored(own)))]);
    assert Advanced(s2, i) == s3;
    First(s2, i, n);
    FinishedStays(s3, i, n - 1);
  }

  lemma {:induction false} FullSlotCompared(s: State, own: Sealed, n: nat)
    requires s.slot.Holds? && s.slot.sealed in s.files && n >= 2
    ensures var kept := s.slot.sealed;
      Times(SlotRead(s, own), |s.requests|, n) ==
        s.(files := if kept == own then s.files + {own} else s.files - {own},
           requests := s.requests + [Request(own, Finished(if kept.secret == own.secret then Stored(kept) else Refused))])
  {
    var s2, i, kept := SlotRead(s, own), |s.requests|, s.slot.sealed;
    var s3 := At(s2, i, Opened(own, kept));
    assert Advanced(s2, i) == s3;
    First(s2, i, n);
    var s4 := s.(files := if kept == own then s.files + {own} else s.files - {own},
                 requests := s.requests + [Request(own, Finished(if kept.secret == own.secret then Stored(kept) else Refused))]);
    if kept == own {
      assert s3 == s4;
      FinishedStays(s3, i, n - 1);
    } else {
      assert s2.files - {own} == s.files - {own};
      assert Advanced(s3, i) == s4;
      First(s3, i, n - 1);
      FinishedStays(s4, i, n - 2);
    }
  }

  /**
   A request that runs by itself finishes within four steps: it stores its secret in an empty slot, finds
   it stored already, or is refused for another one; its own file stays only when it is the stored one.
   */
  lemma {:induction false} PutAlone(s: State, own: Sealed, n: nat)
    requires Inv(s) && n >= 4
    ensures var s' := Times(Next(s, Arrive(own)), |s.requests|, n);
      var kept := if s.slot.Holds? then s.slot.sealed else own;
      && s'.slot == Holds(kept)
      && s'.requests == s.requests + [Request(own, Finished(if kept.secret == own.secret then Stored(kept) else Refused))]
      && s'.files == if kept == own then s.files + {own} else s.files - {own}
  {
    PutReadsSlot(s, own, n);
    if s.slot.Holds? {
      FullSlotCompared(s, own, n - 2);
    } else {
      EmptySlotFilled(s, own, n - 2);
    }
  }
}
