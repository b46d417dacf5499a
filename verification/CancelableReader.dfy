/**
 cancelableReadCloser (iter.go) as a transition system: any number of threads call Read and
 Close, and every step between two synchronisation points is a step of its own.
 */
module CancelableReader {
  import opened Errors
  import opened Schedules

  /**
   Where a thread is. `n` is the byte count a Read will return, `want` the argument of close,
   and `stopped` tells that a Read went through close. Both locks are those of one RWMutex: a
   writer that waits for readers keeps new ones out, and those are let in when it is done.
   */
  datatype Pc =
    | Idle
    | Checking                                  // Read, before the read lock
    | Queued(again: bool)                       // at the read lock, behind a writer
    | CheckLocked
    | InSelect                                  // the wrapped Read is running
    | Arrived(n: nat, err: Option<Error>)       // the wrapped Read has returned
    | Rechecking                                // the context was done first
    | RecheckLocked
    | Closing(reading: bool, n: nat, want: Option<Error>)
    | Draining(reading: bool, n: nat, want: Option<Error>) // waits for the readers that are in
    | Locked(reading: bool, n: nat, want: Option<Error>)
    | ClosingWrapped(reading: bool, n: nat, want: Option<Error>)
    | Unlocking(reading: bool, n: nat)
    | ReadDone(n: nat, err: Option<Error>, stopped: bool)
    | CloseDone(err: Option<Error>)

  /** The call that closed the reader: the error it came with, and what the wrapped Close gave. */
  datatype Cause = Cause(closer: Thread, reading: bool, want: Option<Error>, result: Option<Error>)

  /**
   `late` holds the threads whose latest Read began when the reader was already closed;
   `cause` is known once the wrapped reader has been closed.
   */
  datatype State = State(
    closed: bool, err: Option<Error>, done: bool,
    readers: set<Thread>, queued: set<Thread>, writer: Option<Thread>,
    closes: nat, pcs: map<Thread, Pc>, late: set<Thread>,
    cause: Option<Cause>)

  datatype Action =
    | BeginRead | BeginClose
    | TakeReadLock | Wake | Look
    | Deliver(n: nat, err: Option<Error>) | Finish | Cancelled
    | Announce | TakeWriteLock | Mark | CloseWrapped(result: Option<Error>) | Release
    | ParentDone

  const INIT := State(false, None, false, {}, {}, None, 0, map[], {}, None)

  function PcOf(s: State, t: Thread): Pc {
    if t in s.pcs then s.pcs[t] else Idle
  }

  predicate AtRest(pc: Pc) {
    pc.Idle? || pc.ReadDone? || pc.CloseDone?
  }

  /** readErr once the reader is seen to be closed. */
  function ClosedError(err: Option<Error>): Error {
    if err.Some? then err.value else IteratorClosed
  }

  /** Close hides EOF. */
  function Returned(reading: bool, n: nat, err: Option<Error>): Pc {
    if reading then ReadDone(n, err, true) else CloseDone(HideEof(err))
  }

  function HideEof(err: Option<Error>): Option<Error> {
    if err == Some(EOF) then None else err
  }

  /** What is stored by a closing call that came with `want`, when the wrapped Close gave `result`. */
  function Stored(want: Option<Error>, result: Option<Error>): Option<Error> {
    if want.None? then result else want
  }

  /** What Close reports then, to whoever calls it. */
  function CloseReport(want: Option<Error>, result: Option<Error>): Option<Error> {
    HideEof(Stored(want, result))
  }

  /** Where action `a` takes thread `t`, if it can take it. */
  function NextPc(s: State, t: Thread, a: Action): Option<Pc> {
    var pc := PcOf(s, t);
    match a
    case ParentDone => Some(pc)
    case BeginRead => if AtRest(pc) then Some(Checking) else None
    case BeginClose => if AtRest(pc) then Some(Closing(false, 0, None)) else None
    case TakeReadLock =>
      if !pc.Checking? && !pc.Rechecking? then None
      else if s.writer.Some? then Some(Queued(pc.Rechecking?))
      else Some(if pc.Checking? then CheckLocked else RecheckLocked)
    case Wake =>
      if pc.Queued? && t in s.readers then Some(if pc.again then RecheckLocked else CheckLocked) else None
    case Look =>
      if pc.CheckLocked? then Some(if s.closed then ReadDone(0, Some(ClosedError(s.err)), false) else InSelect)
      else if pc.RecheckLocked? then Some(Closing(true, 0, Some(if s.closed then ClosedError(s.err) else Canceled)))
      else None
    case Deliver(n, err) =>
      if pc.InSelect? then Some(Arrived(n, err)) else None
    case Finish =>
      if pc.Arrived? then Some(if pc.err.Some? then Closing(true, pc.n, pc.err) else ReadDone(pc.n, None, false))
      else None
    case Cancelled =>
      if s.done && (pc.InSelect? || pc.Arrived?) then Some(Rechecking) else None
    case Announce =>
      if pc.Closing? && s.writer.None? then Some(Draining(pc.reading, pc.n, pc.want)) else None
    case TakeWriteLock =>
      if pc.Draining? && s.readers == {} then Some(Locked(pc.reading, pc.n, pc.want)) else None
    case Mark =>
      if !pc.Locked? then None
      else Some(if s.closed then Unlocking(pc.reading, pc.n) else ClosingWrapped(pc.reading, pc.n, pc.want))
    case CloseWrapped(_) =>
      if pc.ClosingWrapped? then Some(Unlocking(pc.reading, pc.n)) else None
    case Release =>
      if pc.Unlocking? then Some(Returned(pc.reading, pc.n, s.err)) else None
  }

  /** What it does to the fields that all threads share. */
  function Effect(s: State, t: Thread, a: Action): State {
    match a
    case ParentDone => s.(done := true)
    case BeginRead => s.(late := if s.closed then s.late + {t} else s.late - {t})
    case BeginClose => s.(late := s.late - {t})
    case TakeReadLock =>
      if s.writer.Some? then s.(queued := s.queued + {t}) else s.(readers := s.readers + {t})
    case Look => s.(readers := s.readers - {t})
    case Announce => s.(writer := Some(t))
    case Mark => if s.closed then s else s.(done := true, closed := true)
    case CloseWrapped(result) =>
      var pc := PcOf(s, t);
      if pc.ClosingWrapped? then
        s.(closes := s.closes + 1, err := Stored(pc.want, result), cause := Some(Cause(t, pc.reading, pc.want, result)))
      else s
    case Release => s.(writer := None, readers := s.readers + s.queued, queued := {})
    case _ => s
  }

  /** The step that a thread takes with an action, if it can take it. */
  function Do(s: State, e: Event<Action>): Option<State> {
    match NextPc(s, e.t, e.a)
    case None => None
    case Some(pc) => Some(Effect(s, e.t, e.a).(pcs := s.pcs[e.t := pc]))
  }

  predicate HoldsRead(pc: Pc) {
    pc.CheckLocked? || pc.RecheckLocked?
  }

  predicate HoldsWrite(pc: Pc) {
    pc.Locked? || pc.ClosingWrapped? || pc.Unlocking?
  }

  // ------------------------------------------------------------------------ invariants

  /** From announcing itself to releasing the lock. */
  predicate IsWriter(pc: Pc) {
    pc.Draining? || HoldsWrite(pc)
  }

  /** A thread holds the read lock between taking and releasing it, or once it has been let in. */
  predicate ReaderFits(s: State, u: Thread) {
    var pc := PcOf(s, u);
    (u in s.readers <==> HoldsRead(pc) || (pc.Queued? && u !in s.queued)) && (u in s.queued ==> pc.Queued?)
  }

  ghost predicate ReadersMatch(s: State) {
    (forall u: Thread :: ReaderFits(s, u)) && (s.queued != {} ==> s.writer.Some?)
  }

  ghost predicate WriterMatches(s: State) {
    (forall u: Thread :: IsWriter(PcOf(s, u)) <==> s.writer == Some(u)) &&
    (s.writer.Some? && HoldsWrite(PcOf(s, s.writer.value)) ==> s.readers == {})
  }

  ghost predicate LocksMatch(s: State) {
    ReadersMatch(s) && WriterMatches(s)
  }

  /** The wrapped reader is being closed, or has been closed once, or is open. */
  ghost predicate CloseCount(s: State) {
    if !s.closed then s.closes == 0 && s.err.None? && (forall u: Thread :: !PcOf(s, u).ClosingWrapped?) &&
                      forall u: Thread :: !PcOf(s, u).Unlocking?
    else if s.writer.Some? && PcOf(s, s.writer.value).ClosingWrapped? then s.closes == 0 && s.err.None?
    else s.closes == 1
  }

  ghost predicate LateReads(s: State) {
    forall u: Thread :: u in s.late ==>
      s.closed &&
      var pc := PcOf(s, u);
      pc.Checking? || pc == Queued(false) || pc.CheckLocked? || (pc.ReadDone? && pc.n == 0 && pc.err.Some?)
  }

  /** Closing is over: `closed` is set and the wrapped reader has been closed. */
  predicate Settled(s: State) {
    s.closed && s.closes == 1
  }

  /** The stored error is that of the closing call, or what the wrapped Close gave if it came without one. */
  predicate CauseKnown(s: State) {
    if Settled(s) then
      s.cause.Some? && s.err == Stored(s.cause.value.want, s.cause.value.result) &&
      (s.cause.value.reading <==> s.cause.value.want.Some?)
    else s.cause.None?
  }

  /** Close comes without an error, and a Read with one. */
  predicate WantFits(pc: Pc) {
    pc.Closing? || pc.Draining? || pc.Locked? || pc.ClosingWrapped? ==> (pc.reading <==> pc.want.Some?)
  }

  ghost predicate WantsFit(s: State) {
    forall u: Thread :: WantFits(PcOf(s, u))
  }

  /** What a call has returned. */
  predicate OutcomeFits(s: State, pc: Pc) {
    match pc
    case ReadDone(n, err, stopped) =>
      if stopped then Settled(s) && err == s.err
      else err.Some? ==> n == 0 && Settled(s) && err == Some(ClosedError(s.err))
    case CloseDone(err) =>
      Settled(s) && err == HideEof(s.err)
    case _ => true
  }

  ghost predicate OutcomesFit(s: State) {
    forall u: Thread :: OutcomeFits(s, PcOf(s, u))
  }

  ghost predicate Inv(s: State) {
    LocksMatch(s) && CloseCount(s) && LateReads(s) && WantsFit(s) && CauseKnown(s) && OutcomesFit(s)
  }

  lemma {:induction false} OthersKept(s: State, e: Event<Action>)
    requires Do(s, e).Some?
    ensures forall u: Thread :: u != e.t ==> PcOf(Do(s, e).value, u) == PcOf(s, u)
  {
  }

  /** What a step does to the place of the other threads in the lock. */
  lemma {:induction false} OthersLock(s: State, e: Event<Action>, u: Thread)
    requires Do(s, e).Some? && u != e.t
    ensures var s' := Do(s, e).value;
            if e.a.Release? then (u in s'.readers <==> u in s.readers || u in s.queued) && s'.queued == {}
            else (u in s'.readers <==> u in s.readers) && (u in s'.queued <==> u in s.queued)
  {
  }

  lemma {:induction false} ReadersMatchKept(s: State, e: Event<Action>)
    requires ReadersMatch(s) && WriterMatches(s) && Do(s, e).Some?
    ensures ReadersMatch(Do(s, e).value)
  {
    hide Do;
    var s' := Do(s, e).value;
    OthersKept(s, e);
    OwnReadLock(s, e);
    QueueHasWriter(s, e);
    forall u: Thread ensures ReaderFits(s', u) {
      assert ReaderFits(s, u);
      if u != e.t {
        OthersLock(s, e, u);
      }
    }
  }

  lemma {:induction false} OwnReadLock(s: State, e: Event<Action>)
    requires ReaderFits(s, e.t) && (s.queued != {} ==> s.writer.Some?) && Do(s, e).Some?
    requires IsWriter(PcOf(s, e.t)) <==> s.writer == Some(e.t)
    ensures ReaderFits(Do(s, e).value, e.t)
  {
  }

  lemma {:induction false} QueueHasWriter(s: State, e: Event<Action>)
    requires (s.queued != {} ==> s.writer.Some?) && Do(s, e).Some?
    ensures Do(s, e).value.queued != {} ==> Do(s, e).value.writer.Some?
  {
  }

  lemma {:induction false} WriterMatchesKept(s: State, e: Event<Action>)
    requires WriterMatches(s) && Do(s, e).Some?
    ensures WriterMatches(Do(s, e).value)
  {
    hide Do;
    OthersKept(s, e);
    OwnWriteLock(s, e);
  }

  lemma {:induction false} OwnWriteLock(s: State, e: Event<Action>)
    requires IsWriter(PcOf(s, e.t)) <==> s.writer == Some(e.t)
    requires HoldsWrite(PcOf(s, e.t)) ==> s.readers == {}
    requires Do(s, e).Some?
    ensures var s' := Do(s, e).value;
            (IsWriter(PcOf(s', e.t)) <==> s'.writer == Some(e.t)) &&
            (s'.writer == s.writer || (s.writer.None? && s'.writer == Some(e.t)) ||
             (s'.writer.None? && s.writer == Some(e.t))) &&
            (HoldsWrite(PcOf(s', e.t)) ==> s'.readers == {}) &&
            (s.writer.Some? && s.writer != Some(e.t) ==> s'.readers <= s.readers)
  {
  }

  lemma {:induction false} CloseCountKept(s: State, e: Event<Action>)
    requires LocksMatch(s) && CloseCount(s) && Do(s, e).Some?
    ensures CloseCount(Do(s, e).value)
  {
    hide Do;
    OthersKept(s, e);
    WriterMatchesKept(s, e);
    CountStep(s, e);
    var s' := Do(s, e).value;
    if s.writer.Some? && s.writer.value != e.t {
      assert IsWriter(PcOf(s, s.writer.value));
    }
    forall u: Thread | !s'.closed ensures !PcOf(s', u).ClosingWrapped? && !PcOf(s', u).Unlocking? {
      assert !PcOf(s, u).ClosingWrapped? && !PcOf(s, u).Unlocking?;
    }
  }

  /** What the thread's own step does to the count. */
  lemma {:induction false} CountStep(s: State, e: Event<Action>)
    requires Do(s, e).Some? && (IsWriter(PcOf(s, e.t)) <==> s.writer == Some(e.t))
    requires !s.closed ==> !PcOf(s, e.t).ClosingWrapped? && !PcOf(s, e.t).Unlocking?
    ensures var s' := Do(s, e).value;
            var pc, pc' := PcOf(s, e.t), PcOf(s', e.t);
            if e.a.CloseWrapped? then
              pc.ClosingWrapped? && s'.closes == s.closes + 1 && s'.closed == s.closed && !pc'.ClosingWrapped?
            else
              s'.closes == s.closes && s'.err == s.err &&
              (if s'.closed == s.closed then pc'.ClosingWrapped? <==> pc.ClosingWrapped?
               else s'.closed && pc'.ClosingWrapped?) &&
              (!s'.closed ==> !pc'.ClosingWrapped? && !pc'.Unlocking?)
  {
  }

  lemma {:induction false} LateReadsKept(s: State, e: Event<Action>)
    requires LateReads(s) && Do(s, e).Some?
    ensures LateReads(Do(s, e).value)
  {
    OthersKept(s, e);
  }

  lemma {:induction false} WantsFitKept(s: State, e: Event<Action>)
    requires WantsFit(s) && Do(s, e).Some?
    ensures WantsFit(Do(s, e).value)
  {
    hide Do, WantFits;
    OthersKept(s, e);
    OwnWantFits(s, e);
  }

  lemma {:induction false} OwnWantFits(s: State, e: Event<Action>)
    requires WantFits(PcOf(s, e.t)) && Do(s, e).Some?
    ensures WantFits(PcOf(Do(s, e).value, e.t))
  {
  }

  lemma {:induction false} CauseKnownKept(s: State, e: Event<Action>)
    requires LocksMatch(s) && CloseCount(s) && WantsFit(s) && CauseKnown(s) && Do(s, e).Some?
    ensures CauseKnown(Do(s, e).value)
  {
    assert IsWriter(PcOf(s, e.t)) <==> s.writer == Some(e.t);
    assert WantFits(PcOf(s, e.t));
  }

  lemma {:induction false} SettledStep(s: State, e: Event<Action>)
    requires LocksMatch(s) && CloseCount(s) && Settled(s) && Do(s, e).Some?
    ensures var s' := Do(s, e).value; Settled(s') && s'.err == s.err
  {
    assert IsWriter(PcOf(s, e.t)) <==> s.writer == Some(e.t);
  }

  /** Nobody looks at the fields while they are being changed. */
  lemma {:induction false} LookersSeeSettled(s: State, t: Thread)
    requires LocksMatch(s) && CloseCount(s) && HoldsRead(PcOf(s, t)) && s.closed
    ensures Settled(s)
  {
    assert ReaderFits(s, t);
  }

  /** Whoever leaves close returns the error that was stored by the first one, not its own. */
  lemma {:induction false} CloseReturnsStored(s: State, t: Thread)
    requires LocksMatch(s) && CloseCount(s) && Do(s, Event(t, Release)).Some?
    ensures Settled(s)
    ensures PcOf(Do(s, Event(t, Release)).value, t) == Returned(PcOf(s, t).reading, PcOf(s, t).n, s.err)
  {
    assert HoldsWrite(PcOf(s, t));
  }

  lemma {:induction false} OwnOutcomeKept(s: State, e: Event<Action>)
    requires LocksMatch(s) && CloseCount(s) && OutcomeFits(s, PcOf(s, e.t)) && Do(s, e).Some?
    ensures var s' := Do(s, e).value; OutcomeFits(s', PcOf(s', e.t))
  {
    hide CloseCount, LocksMatch;
    if Settled(s) {
      SettledStep(s, e);
    }
    if HoldsRead(PcOf(s, e.t)) && s.closed {
      LookersSeeSettled(s, e.t);
    }
    if e.a == Release {
      CloseReturnsStored(s, e.t);
    }
  }

  lemma {:induction false} OutcomesFitKept(s: State, e: Event<Action>)
    requires LocksMatch(s) && CloseCount(s) && OutcomesFit(s) && Do(s, e).Some?
    ensures OutcomesFit(Do(s, e).value)
  {
    hide Do, CloseCount, LocksMatch;
    var s' := Do(s, e).value;
    OthersKept(s, e);
    if Settled(s) {
      SettledStep(s, e);
    }
    forall u: Thread ensures OutcomeFits(s', PcOf(s', u)) {
      assert OutcomeFits(s, PcOf(s, u));
      if u == e.t {
        OwnOutcomeKept(s, e);
      }
    }
  }

  lemma {:induction false} InvKept(s: State, e: Event<Action>)
    requires Inv(s) && Do(s, e).Some?
    ensures Inv(Do(s, e).value)
  {
    hide ReadersMatch, WriterMatches, CloseCount, LateReads, WantsFit, CauseKnown, OutcomesFit, Do;
    ReadersMatchKept(s, e);
    WriterMatchesKept(s, e);
    CloseCountKept(s, e);
    LateReadsKept(s, e);
    WantsFitKept(s, e);
    CauseKnownKept(s, e);
    OutcomesFitKept(s, e);
  }

  // ------------------------------------------------------------------------------ runs

  function Run(s: State, schedule: seq<Event<Action>>): Option<State> {
    Schedules.Run(Do, s, schedule)
  }

  lemma {:induction false} RunCons(s: State, schedule: seq<Event<Action>>)
    requires schedule != []
    ensures Run(s, schedule) ==
            match Do(s, schedule[0]) case None => None case Some(s') => Run(s', schedule[1..])
  {
  }

  lemma {:induction false} InvHolds(s: State, schedule: seq<Event<Action>>)
    requires Inv(s) && Run(s, schedule).Some?
    ensures Inv(Run(s, schedule).value)
  {
    hide Inv, Do;
    forall s: State, e | Inv(s) && Do(s, e).Some? ensures Inv(Do(s, e).value) {
      InvKept(s, e);
    }
    Schedules.InvHolds(Do, s => Inv(s), s, schedule);
  }

  /** In every interleaving the wrapped reader is closed at most once, and only after `closed` is set. */
  lemma {:induction false} ClosedOnce(schedule: seq<Event<Action>>)
    requires Run(INIT, schedule).Some?
    ensures var s := Run(INIT, schedule).value; s.closes <= 1 && (s.closes == 1 ==> s.closed)
    ensures Inv(Run(INIT, schedule).value)
  {
    hide Run, Do;
    assert Inv(INIT);
    InvHolds(INIT, schedule);
  }

  /** From then on nothing that anyone does changes `closed`, the stored error or the count. */
  lemma {:induction false} SettledForever(s: State, schedule: seq<Event<Action>>)
    requires Inv(s) && Settled(s) && Run(s, schedule).Some?
    ensures var s' := Run(s, schedule).value; Settled(s') && s'.err == s.err
    decreases |schedule|
  {
    hide LocksMatch, CloseCount, Settled, Do;
    if schedule != [] {
      var s1 := Do(s, schedule[0]).value;
      RunCons(s, schedule);
      SettledStep(s, schedule[0]);
      InvKept(s, schedule[0]);
      SettledForever(s1, schedule[1..]);
    }
  }

  lemma {:induction false} ClosedStays(s: State, schedule: seq<Event<Action>>)
    requires s.closed && Run(s, schedule).Some?
    ensures Run(s, schedule).value.closed
    decreases |schedule|
  {
    if schedule != [] {
      ClosedStays(Do(s, schedule[0]).value, schedule[1..]);
    }
  }

  ghost predicate ParentWasDone(schedule: seq<Event<Action>>) {
    exists i :: 0 <= i < |schedule| && schedule[i].a.ParentDone?
  }

  lemma {:induction false} DoneFrom(s: State, schedule: seq<Event<Action>>)
    requires Run(s, schedule).Some? && (s.closed ==> s.done)
    ensures var s' := Run(s, schedule).value;
            s'.done <==> s.done || ParentWasDone(schedule) || s'.closed
    decreases |schedule|
  {
    if schedule != [] {
      var e := schedule[0];
      var s1 := Do(s, e).value;
      RunCons(s, schedule);
      DoneStep(s, e);
      DoneFrom(s1, schedule[1..]);
      if s1.closed {
        ClosedStays(s1, schedule[1..]);
      }
      assert ParentWasDone(schedule) <==> e.a.ParentDone? || ParentWasDone(schedule[1..]) by {
        assert forall i :: 0 <= i < |schedule| - 1 ==> schedule[1..][i] == schedule[i + 1];
        if ParentWasDone(schedule[1..]) {
          var i :| 0 <= i < |schedule| - 1 && schedule[1..][i].a.ParentDone?;
          assert schedule[i + 1].a.ParentDone?;
        }
        assert e.a.ParentDone? ==> schedule[0].a.ParentDone?;
      }
    }
  }

  lemma {:induction false} DoneStep(s: State, e: Event<Action>)
    requires Do(s, e).Some? && (s.closed ==> s.done)
    ensures var s' := Do(s, e).value;
            (s'.done <==> s.done || e.a.ParentDone? || s'.closed) && (s.closed ==> s'.closed)
  {
  }

  /** A Read under way can give up if and only if the caller's context is done or the reader is closed. */
  lemma {:induction false} GivesUpExactly(schedule: seq<Event<Action>>, t: Thread)
    requires Run(INIT, schedule).Some? && PcOf(Run(INIT, schedule).value, t).InSelect?
    ensures var s := Run(INIT, schedule).value;
            Do(s, Event(t, Cancelled)).Some? <==> ParentWasDone(schedule) || s.closed
  {
    hide Run, ParentWasDone;
    DoneFrom(INIT, schedule);
  }

  /** A Read that starts when the reader is closed returns no bytes and an error. */
  lemma {:induction false} LateReadFails(s: State, t: Thread, schedule: seq<Event<Action>>)
    requires Inv(s) && s.closed && Do(s, Event(t, BeginRead)).Some?
    requires forall e :: e in schedule && e.t == t ==> e.a != BeginRead && e.a != BeginClose
    requires Run(Do(s, Event(t, BeginRead)).value, schedule).Some?
    ensures var s' := Run(Do(s, Event(t, BeginRead)).value, schedule).value;
            var pc := PcOf(s', t);
            AtRest(pc) ==> pc.ReadDone? && pc.n == 0 && pc.err.Some?
  {
    hide Do, Run;
    var s1 := Do(s, Event(t, BeginRead)).value;
    BeginReadIsLate(s, t);
    InvKept(s, Event(t, BeginRead));
    StaysLate(s1, t, schedule);
    InvHolds(s1, schedule);
  }

  lemma {:induction false} BeginReadIsLate(s: State, t: Thread)
    requires s.closed && Do(s, Event(t, BeginRead)).Some?
    ensures t in Do(s, Event(t, BeginRead)).value.late
  {
  }

  lemma {:induction false} StaysLate(s: State, t: Thread, schedule: seq<Event<Action>>)
    requires t in s.late && Run(s, schedule).Some?
    requires forall e :: e in schedule && e.t == t ==> e.a != BeginRead && e.a != BeginClose
    ensures t in Run(s, schedule).value.late
    decreases |schedule|
  {
    if schedule != [] {
      var s1 := Do(s, schedule[0]).value;
      assert schedule[0] in schedule;
      assert forall e :: e in schedule[1..] ==> e in schedule;
      StaysLate(s1, t, schedule[1..]);
    }
  }

  /**
   What a Read returns, in every interleaving. One that went through close, because it was
   abandoned or the wrapped Read failed, returns the error of the call that closed the reader,
   which is none if and only if that call was a Close and the wrapped Close gave none. Any
   other returns an error only when it found the reader closed, and no bytes then: the error
   that was stored, or else that the iterator is closed.
   */
  lemma {:induction false} ReadReturns(schedule: seq<Event<Action>>, t: Thread)
    requires Run(INIT, schedule).Some? && PcOf(Run(INIT, schedule).value, t).ReadDone?
    ensures var s := Run(INIT, schedule).value;
            var pc := PcOf(s, t);
            if pc.stopped then
              s.closed && s.closes == 1 && s.cause.Some? &&
              pc.err == (if s.cause.value.want.Some? then s.cause.value.want else s.cause.value.result) &&
              (pc.err.None? <==> !s.cause.value.reading && s.cause.value.result.None?)
            else
              pc.err.Some? ==>
                pc.n == 0 && s.closed && s.closes == 1 &&
                pc.err.value == if s.err.Some? then s.err.value else IteratorClosed
  {
    hide Run, Do;
    ClosedOnce(schedule);
    assert OutcomeFits(Run(INIT, schedule).value, PcOf(Run(INIT, schedule).value, t));
  }

  /**
   What a Close returns, in every interleaving: the error of the call that closed the reader,
   be it this one, another Close or a failed Read, else what the wrapped Close gave. EOF is no
   error of Close.
   */
  lemma {:induction false} CloseReturns(schedule: seq<Event<Action>>, t: Thread)
    requires Run(INIT, schedule).Some? && PcOf(Run(INIT, schedule).value, t).CloseDone?
    ensures var s := Run(INIT, schedule).value;
            s.closed && s.closes == 1 && s.cause.Some? &&
            var stored := if s.cause.value.want.Some? then s.cause.value.want else s.cause.value.result;
            PcOf(s, t).err == if stored == Some(EOF) then None else stored
  {
    hide Run, Do;
    ClosedOnce(schedule);
    assert OutcomeFits(Run(INIT, schedule).value, PcOf(Run(INIT, schedule).value, t));
  }

  /** From giving up on the wrapped Read to the end of the call. */
  predicate Abandoned(pc: Pc) {
    match pc
    case Rechecking | RecheckLocked => true
    case Queued(again) => again
    case Closing(reading, n, _) => reading && n == 0
    case Draining(reading, n, _) => reading && n == 0
    case Locked(reading, n, _) => reading && n == 0
    case ClosingWrapped(reading, n, _) => reading && n == 0
    case Unlocking(reading, n) => reading && n == 0
    case ReadDone(n, _, stopped) => stopped && n == 0
    case _ => false
  }

  lemma {:induction false} AbandonedStep(s: State, e: Event<Action>, t: Thread)
    requires Abandoned(PcOf(s, t)) && Do(s, e).Some?
    requires e.t == t ==> e.a != BeginRead && e.a != BeginClose
    ensures Abandoned(PcOf(Do(s, e).value, t))
  {
  }

  lemma {:induction false} StaysAbandoned(s: State, t: Thread, schedule: seq<Event<Action>>)
    requires Abandoned(PcOf(s, t)) && Run(s, schedule).Some?
    requires forall e :: e in schedule && e.t == t ==> e.a != BeginRead && e.a != BeginClose
    ensures Abandoned(PcOf(Run(s, schedule).value, t))
    decreases |schedule|
  {
    hide Abandoned, Do;
    if schedule != [] {
      RunCons(s, schedule);
      assert schedule[0] in schedule;
      AbandonedStep(s, schedule[0], t);
      StaysAbandoned(Do(s, schedule[0]).value, t, schedule[1..]);
    }
  }

  /**
   A Read that gives up on the wrapped Read because the context is done: whatever happens
   before and afterwards, it returns no bytes, and no error if and only if the reader was
   closed by a Close and the wrapped Close gave none.
   */
  lemma {:induction false} AbandonedReadReturns(
      schedule: seq<Event<Action>>, t: Thread, later: seq<Event<Action>>)
    requires Run(INIT, schedule).Some? && Do(Run(INIT, schedule).value, Event(t, Cancelled)).Some?
    requires forall e :: e in later && e.t == t ==> e.a != BeginRead && e.a != BeginClose
    requires Run(INIT, schedule + [Event(t, Cancelled)] + later).Some?
    ensures var s := Run(INIT, schedule + [Event(t, Cancelled)] + later).value;
            var pc := PcOf(s, t);
            AtRest(pc) ==>
              pc.ReadDone? && pc.n == 0 && Settled(s) && s.cause.Some? &&
              (pc.err.None? <==> !s.cause.value.reading && s.cause.value.result.None?)
  {
    hide Run;
    var cancelled := schedule + [Event(t, Cancelled)];
    RunOne(INIT, schedule, Event(t, Cancelled));
    RunAppend(INIT, cancelled, later);
    StaysAbandoned(Run(INIT, cancelled).value, t, later);
    if PcOf(Run(INIT, cancelled + later).value, t).ReadDone? {
      ReadReturns(cancelled + later, t);
    }
  }

  /** From the answer of the wrapped Read to the end of the call, unless that is abandoned. */
  predicate Delivering(pc: Pc, n: nat, err: Option<Error>) {
    match pc
    case Arrived(m, e) => m == n && e == err
    case Closing(reading, m, want) => reading && m == n && err.Some? && want == err
    case Draining(reading, m, want) => reading && m == n && err.Some? && want == err
    case Locked(reading, m, want) => reading && m == n && err.Some? && want == err
    case ClosingWrapped(reading, m, want) => reading && m == n && err.Some? && want == err
    case Unlocking(reading, m) => reading && m == n && err.Some?
    case ReadDone(m, e, stopped) => m == n && (stopped <==> err.Some?) && (err.None? ==> e.None?)
    case _ => false
  }

  lemma {:induction false} DeliveringStep(s: State, e: Event<Action>, t: Thread, n: nat, err: Option<Error>)
    requires Delivering(PcOf(s, t), n, err) && Do(s, e).Some?
    requires e.t == t ==> e.a != BeginRead && e.a != BeginClose && e.a != Cancelled
    ensures Delivering(PcOf(Do(s, e).value, t), n, err)
  {
  }

  lemma {:induction false} StaysDelivering(
      s: State, t: Thread, n: nat, err: Option<Error>, schedule: seq<Event<Action>>)
    requires Delivering(PcOf(s, t), n, err) && Run(s, schedule).Some?
    requires forall e :: e in schedule && e.t == t ==> e.a != BeginRead && e.a != BeginClose && e.a != Cancelled
    ensures Delivering(PcOf(Run(s, schedule).value, t), n, err)
    decreases |schedule|
  {
    hide Delivering, Do;
    if schedule != [] {
      RunCons(s, schedule);
      assert schedule[0] in schedule;
      DeliveringStep(s, schedule[0], t, n, err);
      StaysDelivering(Do(s, schedule[0]).value, t, n, err, schedule[1..]);
    }
  }

  /**
   A Read that is not abandoned returns the bytes that the wrapped Read gave, whatever happens
   before and afterwards: without an error if that gave none, and through close if it did.
   */
  lemma {:induction false} ReadDelivers(
      schedule: seq<Event<Action>>, t: Thread, n: nat, err: Option<Error>, later: seq<Event<Action>>)
    requires Run(INIT, schedule).Some? && Do(Run(INIT, schedule).value, Event(t, Deliver(n, err))).Some?
    requires forall e :: e in later && e.t == t ==> e.a != BeginRead && e.a != BeginClose && e.a != Cancelled
    requires Run(INIT, schedule + [Event(t, Deliver(n, err))] + later).Some?
    ensures var s := Run(INIT, schedule + [Event(t, Deliver(n, err))] + later).value;
            var pc := PcOf(s, t);
            AtRest(pc) ==>
              pc.ReadDone? && pc.n == n &&
              if err.None? then !pc.stopped && pc.err.None?
              else pc.stopped && s.cause.Some? &&
                   pc.err == if s.cause.value.want.Some? then s.cause.value.want else s.cause.value.result
  {
    hide Run;
    var delivered := schedule + [Event(t, Deliver(n, err))];
    RunOne(INIT, schedule, Event(t, Deliver(n, err)));
    RunAppend(INIT, delivered, later);
    StaysDelivering(Run(INIT, delivered).value, t, n, err, later);
    if PcOf(Run(INIT, delivered + later).value, t).ReadDone? {
      ReadReturns(delivered + later, t);
    }
  }

  /** `t` has been given the error by the wrapped reader. */
  ghost predicate Given(past: seq<Event<Action>>, t: Thread, e: Error) {
    exists n :: Event(t, Deliver(n, Some(e))) in past
  }

  /** Where the error that a Read brings to close can come from while the reader is open. */
  ghost predicate OriginFits(past: seq<Event<Action>>, s: State, u: Thread) {
    var pc := PcOf(s, u);
    (pc.Arrived? && pc.err.Some? ==> Given(past, u, pc.err.value)) &&
    ((pc.Closing? || pc.Draining? || pc.Locked?) && pc.want.Some? ==>
       s.closed || pc.want.value == Canceled || Given(past, u, pc.want.value)) &&
    (pc.ClosingWrapped? && pc.want.Some? ==> pc.want.value == Canceled || Given(past, u, pc.want.value))
  }

  ghost predicate Origin(past: seq<Event<Action>>, s: State) {
    (forall u: Thread :: OriginFits(past, s, u)) &&
    (s.cause.Some? && s.cause.value.want.Some? ==>
       s.cause.value.want.value == Canceled || Given(past, s.cause.value.closer, s.cause.value.want.value))
  }

  lemma {:induction false} GivenGrows(past: seq<Event<Action>>, e: Event<Action>)
    ensures forall u: Thread, err :: Given(past, u, err) ==> Given(past + [e], u, err)
    ensures e.a.Deliver? && e.a.err.Some? ==> Given(past + [e], e.t, e.a.err.value)
  {
    forall u: Thread, err | Given(past, u, err) ensures Given(past + [e], u, err) {
      var n :| Event(u, Deliver(n, Some(err))) in past;
      assert Event(u, Deliver(n, Some(err))) in past + [e];
    }
    if e.a.Deliver? && e.a.err.Some? {
      assert Event(e.t, Deliver(e.a.n, Some(e.a.err.value))) in past + [e];
    }
  }

  /** On its way to the lock with an error. */
  predicate Brings(pc: Pc, err: Error) {
    (pc.Closing? || pc.Draining? || pc.Locked?) && pc.want == Some(err)
  }

  /** What the thread's own step does to the error that it brings. */
  lemma {:induction false} BringsStep(s: State, e: Event<Action>)
    requires Do(s, e).Some?
    ensures var pc, pc' := PcOf(s, e.t), PcOf(Do(s, e).value, e.t);
            pc' == pc ||
            ((pc'.Arrived? ==> e.a == Deliver(pc'.n, pc'.err)) &&
             (forall err :: Brings(pc', err) ==>
                s.closed || err == Canceled || Brings(pc, err) || (pc.Arrived? && pc.err == Some(err))) &&
             (pc'.ClosingWrapped? ==> !s.closed && pc.Locked? && pc.want == pc'.want))
    ensures s.closed ==> Do(s, e).value.closed
  {
  }

  lemma {:induction false} OwnOrigin(past: seq<Event<Action>>, s: State, e: Event<Action>)
    requires OriginFits(past, s, e.t) && Do(s, e).Some?
    requires forall err :: Given(past, e.t, err) ==> Given(past + [e], e.t, err)
    requires e.a.Deliver? && e.a.err.Some? ==> Given(past + [e], e.t, e.a.err.value)
    ensures OriginFits(past + [e], Do(s, e).value, e.t)
    ensures s.closed ==> Do(s, e).value.closed
  {
    hide Given, Do, PcOf;
    BringsStep(s, e);
    var pc' := PcOf(Do(s, e).value, e.t);
    assert (pc'.Closing? || pc'.Draining? || pc'.Locked?) && pc'.want.Some? ==> Brings(pc', pc'.want.value);
  }

  lemma {:induction false} CauseOrigin(past: seq<Event<Action>>, s: State, e: Event<Action>)
    requires OriginFits(past, s, e.t) && Do(s, e).Some?
    ensures var c := Do(s, e).value.cause;
            c != s.cause && c.Some? && c.value.want.Some? ==>
              c.value.closer == e.t &&
              (c.value.want.value == Canceled || Given(past, e.t, c.value.want.value))
  {
    hide Given;
  }

  lemma {:induction false} OriginKept(past: seq<Event<Action>>, s: State, e: Event<Action>)
    requires Origin(past, s) && Do(s, e).Some?
    ensures Origin(past + [e], Do(s, e).value)
  {
    hide Do, Given;
    OthersKept(s, e);
    GivenGrows(past, e);
    assert OriginFits(past, s, e.t);
    OwnOrigin(past, s, e);
    CauseOrigin(past, s, e);
    forall u: Thread ensures OriginFits(past + [e], Do(s, e).value, u) {
      assert OriginFits(past, s, u);
    }
  }

  lemma {:induction false} OriginHolds(past: seq<Event<Action>>, s: State, schedule: seq<Event<Action>>)
    requires Origin(past, s) && Run(s, schedule).Some?
    ensures Origin(past + schedule, Run(s, schedule).value)
    decreases |schedule|
  {
    hide Do, Origin;
    if schedule == [] {
      assert past + schedule == past;
    } else {
      RunCons(s, schedule);
      OriginKept(past, s, schedule[0]);
      OriginHolds(past + [schedule[0]], Do(s, schedule[0]).value, schedule[1..]);
      assert past + [schedule[0]] + schedule[1..] == past + schedule;
    }
  }

  /** The error that closes the reader is one that the wrapped reader gave to that Read, or that it was abandoned. */
  lemma {:induction false} CauseIsGenuine(schedule: seq<Event<Action>>)
    requires Run(INIT, schedule).Some?
    ensures var s := Run(INIT, schedule).value;
            s.cause.Some? && s.cause.value.want.Some? ==>
              s.cause.value.reading &&
              (s.cause.value.want.value == Canceled ||
               Given(schedule, s.cause.value.closer, s.cause.value.want.value))
  {
    hide Run, Do, Given;
    assert Origin([], INIT);
    OriginHolds([], INIT, schedule);
    assert [] + schedule == schedule;
    ClosedOnce(schedule);
  }

  /** Closing the reader cancels the context, so that nobody goes on waiting for the wrapped reader. */
  lemma {:induction false} ClosedIsDone(schedule: seq<Event<Action>>)
    requires Run(INIT, schedule).Some? && Run(INIT, schedule).value.closed
    ensures Run(INIT, schedule).value.done
  {
    DoneHolds(INIT, schedule);
  }

  lemma {:induction false} DoneHolds(s: State, schedule: seq<Event<Action>>)
    requires (s.closed ==> s.done) && Run(s, schedule).Some?
    ensures Run(s, schedule).value.closed ==> Run(s, schedule).value.done
    decreases |schedule|
  {
    if schedule != [] {
      DoneHolds(Do(s, schedule[0]).value, schedule[1..]);
    }
  }

  // ------------------------------------------------------------------- calls are bounded

  /** How many steps a call has left to take itself. */
  function StepsLeft(pc: Pc): nat {
    match pc
    case Idle | ReadDone(_, _, _) | CloseDone(_) => 0
    case Unlocking(_, _) => 1
    case ClosingWrapped(_, _, _) => 2
    case Locked(_, _, _) => 3
    case Draining(_, _, _) => 4
    case Closing(_, _, _) => 5
    case RecheckLocked => 6
    case Queued(again) => if again then 7 else 12
    case Rechecking => 8
    case Arrived(_, _) => 9
    case InSelect => 10
    case CheckLocked => 11
    case Checking => 13
  }

  function OwnSteps(t: Thread, schedule: seq<Event<Action>>): nat
    decreases |schedule|
  {
    if schedule == [] then 0
    else (if schedule[0].t == t && schedule[0].a != ParentDone then 1 else 0) + OwnSteps(t, schedule[1..])
  }

  lemma {:induction false} StepCounts(s: State, e: Event<Action>, t: Thread)
    requires Do(s, e).Some? && (e.t == t ==> e.a != BeginRead && e.a != BeginClose)
    ensures StepsLeft(PcOf(Do(s, e).value, t)) + (if e.t == t && e.a != ParentDone then 1 else 0) <=
            StepsLeft(PcOf(s, t))
  {
  }

  lemma {:induction false} StepsAreCounted(s: State, t: Thread, schedule: seq<Event<Action>>)
    requires Run(s, schedule).Some?
    requires forall e :: e in schedule && e.t == t ==> e.a != BeginRead && e.a != BeginClose
    ensures OwnSteps(t, schedule) + StepsLeft(PcOf(Run(s, schedule).value, t)) <= StepsLeft(PcOf(s, t))
    decreases |schedule|
  {
    hide Do, StepsLeft;
    if schedule != [] {
      RunCons(s, schedule);
      assert schedule[0] in schedule;
      StepCounts(s, schedule[0], t);
      StepsAreCounted(Do(s, schedule[0]).value, t, schedule[1..]);
    }
  }

  /** No call takes more than thirteen steps of its own, whatever the others do. */
  lemma {:induction false} CallsAreBounded(s: State, t: Thread, schedule: seq<Event<Action>>)
    requires Run(s, schedule).Some?
    requires forall e :: e in schedule && e.t == t ==> e.a != BeginRead && e.a != BeginClose
    ensures OwnSteps(t, schedule) <= 13
  {
    hide Run;
    StepsAreCounted(s, t, schedule);
  }

  lemma {:induction false} RunOne(s: State, schedule: seq<Event<Action>>, e: Event<Action>)
    requires Run(s, schedule).Some? && Do(Run(s, schedule).value, e).Some?
    ensures Run(s, schedule + [e]) == Do(Run(s, schedule).value, e)
  {
    RunSnoc(Do, s, schedule, e);
  }

  lemma {:induction false} RunAppend(s: State, first: seq<Event<Action>>, second: seq<Event<Action>>)
    requires Run(s, first).Some?
    ensures Run(s, first + second) == Run(Run(s, first).value, second)
    decreases |first|
  {
    hide Do;
    if first == [] {
      assert first + second == second;
    } else {
      assert (first + second)[1..] == first[1..] + second;
      RunCons(s, first);
      RunCons(s, first + second);
      RunAppend(Do(s, first[0]).value, first[1..], second);
    }
  }

  /** One more step of a schedule that is put together. */
  lemma {:induction false} Take(schedule: seq<Event<Action>>, t: Thread, a: Action) returns (more: seq<Event<Action>>)
    requires Run(INIT, schedule).Some? && Do(Run(INIT, schedule).value, Event(t, a)).Some?
    ensures Run(INIT, more) == Do(Run(INIT, schedule).value, Event(t, a))
  {
    RunOne(INIT, schedule, Event(t, a));
    more := schedule + [Event(t, a)];
  }

  /** Nobody is in either lock. */
  predicate Unlocked(s: State) {
    s.writer.None? && s.readers == {} && s.queued == {}
  }

  /** Thread 1 waits for the wrapped reader. */
  lemma {:induction false} ReadUnderWay() returns (schedule: seq<Event<Action>>)
    ensures Run(INIT, schedule).Some?
    ensures var s := Run(INIT, schedule).value;
            !s.closed && s.err.None? && Unlocked(s) && PcOf(s, 1) == InSelect && PcOf(s, 2) == Idle
  {
    hide Run;
    RunNothing(INIT);
    schedule := Take([], 1, BeginRead);
    schedule := Take(schedule, 1, TakeReadLock);
    schedule := Take(schedule, 1, Look);
  }

  /** Thread 2 has the write lock, and no error to store. */
  lemma {:induction false} CloseUnderWay() returns (schedule: seq<Event<Action>>)
    ensures Run(INIT, schedule).Some?
    ensures var s := Run(INIT, schedule).value;
            !s.closed && s.readers == {} && s.queued == {} &&
            PcOf(s, 1) == InSelect && PcOf(s, 2) == Locked(false, 0, None)
  {
    hide Run;
    schedule := ReadUnderWay();
    schedule := Take(schedule, 2, BeginClose);
    schedule := Take(schedule, 2, Announce);
    schedule := Take(schedule, 2, TakeWriteLock);
  }

  /** Thread 2 closes while thread 1 reads, without an error. */
  lemma {:induction false} CloseDuringRead() returns (schedule: seq<Event<Action>>)
    ensures Run(INIT, schedule).Some?
    ensures var s := Run(INIT, schedule).value;
            s.closed && s.err.None? && s.done && Unlocked(s) && PcOf(s, 1) == InSelect
  {
    hide Run;
    schedule := CloseUnderWay();
    schedule := Take(schedule, 2, Mark);
    schedule := Take(schedule, 2, CloseWrapped(None));
    schedule := Take(schedule, 2, Release);
  }

  /** Thread 1 gives up on the wrapped reader and goes on to close. */
  lemma {:induction false} ReadAbandoned() returns (schedule: seq<Event<Action>>)
    ensures Run(INIT, schedule).Some?
    ensures var s := Run(INIT, schedule).value;
            s.closed && s.err.None? && Unlocked(s) && PcOf(s, 1) == Closing(true, 0, Some(IteratorClosed))
  {
    hide Run;
    schedule := CloseDuringRead();
    schedule := Take(schedule, 1, Cancelled);
    schedule := Take(schedule, 1, TakeReadLock);
    schedule := Take(schedule, 1, Look);
  }

  lemma {:induction false} RunNothing(s: State)
    ensures Run(s, []) == Some(s)
  {
  }

  /**
   A Read that is under way when Close succeeds may return no bytes and no error: the context
   is done, but close has no stored error to report.
   */
  lemma {:induction false} ReadUnderWayMayReturnNothing() returns (schedule: seq<Event<Action>>)
    ensures Run(INIT, schedule).Some? && PcOf(Run(INIT, schedule).value, 1) == ReadDone(0, None, true)
  {
    hide Run;
    schedule := ReadAbandoned();
    schedule := Take(schedule, 1, Announce);
    schedule := Take(schedule, 1, TakeWriteLock);
    schedule := Take(schedule, 1, Mark);
    schedule := Take(schedule, 1, Release);
  }

  /** What a thread can do next on its own, or once the wrapped reader answers. */
  function NextAction(pc: Pc): Action {
    match pc
    case Idle => BeginRead
    case Checking => TakeReadLock
    case Queued(_) => Wake
    case CheckLocked => Look
    case InSelect => Deliver(0, None)
    case Arrived(_, _) => Finish
    case Rechecking => TakeReadLock
    case RecheckLocked => Look
    case Closing(_, _, _) => Announce
    case Draining(_, _, _) => TakeWriteLock
    case Locked(_, _, _) => Mark
    case ClosingWrapped(_, _, _) => CloseWrapped(None)
    case Unlocking(_, _) => Release
    case ReadDone(_, _, _) => BeginRead
    case CloseDone(_) => BeginRead
  }

  predicate CanMove(s: State, t: Thread) {
    Do(s, Event(t, NextAction(PcOf(s, t)))).Some?
  }

  /** In every interleaving a thread can move, or waits for a lock whose holder can. */
  lemma {:induction false} NoDeadlock(schedule: seq<Event<Action>>, t: Thread)
    requires Run(INIT, schedule).Some?
    ensures var s := Run(INIT, schedule).value;
            CanMove(s, t) ||
            exists u: Thread :: u != t && (u in s.readers || s.writer == Some(u)) && CanMove(s, u)
  {
    hide Run;
    ClosedOnce(schedule);
    var s := Run(INIT, schedule).value;
    assert ReaderFits(s, t) && (IsWriter(PcOf(s, t)) <==> s.writer == Some(t));
    if s.readers != {} {
      var u :| u in s.readers;
      assert ReaderFits(s, u) && CanMove(s, u);
      assert u == t ==> CanMove(s, t);
    } else if s.writer.Some? {
      var u := s.writer.value;
      assert IsWriter(PcOf(s, u)) && CanMove(s, u);
    }
  }
}
