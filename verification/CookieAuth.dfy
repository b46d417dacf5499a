/**
 The cookie login protocol (chttp/cookieauth.go) as a transition system: any number of
 threads send requests through one authenticator, which shares a cookie jar and holds a
 mutex while it logs in with a request that goes through the authenticator itself.
 */
module CookieAuth {
  import opened Errors
  import opened Schedules

  /** The session cookie as far as the protocol looks at it. */
  datatype Cookie = Cookie(expiresSoon: bool)

  /** Where one RoundTrip is. `answered` says that there was a response. */
  datatype Pc =
    | Entered
    | Deciding                                // shouldAuth
    | Waiting                                 // for authMU
    | Holding
    | LoginSent                               // the nested /_session request is under way
    | LoginBack(failed: bool)
    | InFlight                                // at the wrapped transport
    | Refused                                 // status 401
    | Discarding                              // has read the cookie that it will expire
    | Finished(failed: bool, answered: bool)

  /** One RoundTrip of one request; `inProgress` is the mark in its context. */
  datatype Frame = Frame(inProgress: bool, pc: Pc)

  /** `logins` counts login replies that set the cookie, `losses` cookies dropped after a 401 or expired. */
  datatype State = State(
    jar: Option<Cookie>, mutex: Option<Thread>, stacks: map<Thread, seq<Frame>>, logins: nat, losses: nat)

  datatype Reply = NoReply | Unauthorized | Replied(failed: bool)

  datatype Action =
    | Send | Enter | Decide(ownCookie: bool) | TakeLock | Recheck(cannotSend: bool)
    | Receive(reply: Reply) | ReadJar | Discard | Leave(setsCookie: bool) | Resume
    | Age | Expire

  const INIT := State(None, None, map[], 0, 0)

  function StackOf(s: State, t: Thread): seq<Frame> {
    if t in s.stacks then s.stacks[t] else []
  }

  function WithStack(s: State, t: Thread, stack: seq<Frame>): State {
    s.(stacks := s.stacks[t := stack])
  }

  /** Thread `t` moves its innermost RoundTrip on. */
  function At(s: State, t: Thread, pc: Pc): State
    requires StackOf(s, t) != []
  {
    var stack := StackOf(s, t);
    var n := |stack| - 1;
    WithStack(s, t, stack[..n] + [stack[n].(pc := pc)])
  }

  function Lose(s: State): State {
    if s.jar.Some? then s.(jar := None, losses := s.losses + 1) else s
  }

  function Do(s: State, t: Thread, a: Action): Option<State> {
    var stack := StackOf(s, t);
    if a.Age? then
      if s.jar.Some? then Some(s.(jar := Some(Cookie(true)))) else None
    else if a.Expire? then
      if s.jar.Some? then Some(Lose(s)) else None
    else if a.Send? then
      if stack == [] then Some(WithStack(s, t, [Frame(false, Entered)])) else None
    else if stack == [] then None
    else InRoundTrip(s, t, stack[|stack| - 1], a)
  }

  /** The steps of RoundTrip and authenticate, for the innermost request of `t`. */
  function InRoundTrip(s: State, t: Thread, f: Frame, a: Action): Option<State>
    requires StackOf(s, t) != []
  {
    match f.pc
    case Entered =>
      if a.Enter? then Some(At(s, t, if f.inProgress then InFlight else Deciding)) else None
    case Deciding =>
      if !a.Decide? then None
      else if a.ownCookie || (s.jar.Some? && !s.jar.value.expiresSoon) then Some(At(s, t, InFlight))
      else Some(At(s, t, Waiting))
    case Waiting =>
      if a.TakeLock? && s.mutex.None? then Some(At(s, t, Holding).(mutex := Some(t))) else None
    case Holding =>
      if !a.Recheck? then None
      else if s.jar.Some? then Some(At(s, t, InFlight).(mutex := None))
      else if a.cannotSend then Some(At(s, t, LoginBack(true)))
      else
        var s' := At(s, t, LoginSent);
        Some(WithStack(s', t, StackOf(s', t) + [Frame(true, Entered)]))
    case LoginSent => None
    case LoginBack(failed) =>
      if a.Resume? then Some(At(s, t, if failed then Finished(true, false) else InFlight).(mutex := None)) else None
    case InFlight =>
      if !a.Receive? then None
      else
        Some(At(s, t, match a.reply
                      case NoReply => Finished(true, false)
                      case Unauthorized => Refused
                      case Replied(failed) => Finished(failed, true)))
    case Refused =>
      if a.ReadJar? then Some(At(s, t, if s.jar.Some? then Discarding else Finished(true, true))) else None
    case Discarding =>
      if a.Discard? then Some(At(Lose(s), t, Finished(true, true))) else None
    case Finished(failed, answered) =>
      if !a.Leave? then None else Return(s, t, failed, answered, a.setsCookie)
  }

  /** http.Client stores the reply's cookies after RoundTrip; only login replies carry the session cookie. */
  function Return(s: State, t: Thread, failed: bool, answered: bool, setsCookie: bool): Option<State>
    requires StackOf(s, t) != []
  {
    var stack := StackOf(s, t);
    var n := |stack| - 1;
    if n == 0 then
      if setsCookie then None else Some(WithStack(s, t, []))
    else if setsCookie && !answered then None
    else
      var s' := At(WithStack(s, t, stack[..n]), t, LoginBack(failed));
      Some(if setsCookie then s'.(jar := Some(Cookie(false)), logins := s'.logins + 1) else s')
  }

  // ------------------------------------------------------------------------ invariants

  predicate HoldsLock(stack: seq<Frame>) {
    stack != [] && (stack[0].pc.Holding? || stack[0].pc.LoginSent? || stack[0].pc.LoginBack?)
  }

  /** A login is nested in the request that needs it, and in nothing else. */
  predicate WellNested(stack: seq<Frame>) {
    |stack| <= 2 &&
    (|stack| >= 1 ==> !stack[0].inProgress && (stack[0].pc.LoginSent? <==> |stack| == 2)) &&
    (|stack| == 2 ==>
       stack[1].inProgress &&
       (stack[1].pc.Entered? || stack[1].pc.InFlight? || stack[1].pc.Refused? ||
        stack[1].pc.Discarding? || stack[1].pc.Finished?))
  }

  ghost predicate Nesting(s: State) {
    forall t: Thread :: WellNested(StackOf(s, t))
  }

  ghost predicate LockMatches(s: State) {
    forall t: Thread :: HoldsLock(StackOf(s, t)) <==> s.mutex == Some(t)
  }

  /** While a login is under way the jar is empty. */
  ghost predicate LoginFillsEmptyJar(s: State) {
    forall t: Thread :: |StackOf(s, t)| == 2 ==> s.jar.None?
  }

  predicate Conserved(s: State) {
    s.logins == s.losses + if s.jar.Some? then 1 else 0
  }

  ghost predicate Inv(s: State) {
    Nesting(s) && LockMatches(s) && LoginFillsEmptyJar(s) && Conserved(s)
  }

  lemma {:induction false} OthersKept(s: State, t: Thread, a: Action)
    requires Do(s, t, a).Some?
    ensures forall u: Thread :: u != t ==> StackOf(Do(s, t, a).value, u) == StackOf(s, u)
  {
  }

  lemma {:induction false} NestingKept(s: State, t: Thread, a: Action)
    requires Nesting(s) && Do(s, t, a).Some?
    ensures Nesting(Do(s, t, a).value)
  {
    OthersKept(s, t, a);
    assert WellNested(StackOf(s, t));
    OwnNestingKept(s, t, a);
  }

  lemma {:induction false} OwnNestingKept(s: State, t: Thread, a: Action)
    requires WellNested(StackOf(s, t)) && Do(s, t, a).Some?
    ensures WellNested(StackOf(Do(s, t, a).value, t))
  {
  }

  lemma {:induction false} LockMatchesKept(s: State, t: Thread, a: Action)
    requires Nesting(s) && LockMatches(s) && Do(s, t, a).Some?
    ensures LockMatches(Do(s, t, a).value)
  {
    hide Do;
    OthersKept(s, t, a);
    assert WellNested(StackOf(s, t));
    assert HoldsLock(StackOf(s, t)) <==> s.mutex == Some(t);
    OwnLockKept(s, t, a);
    assert forall u: Thread :: HoldsLock(StackOf(s, u)) <==> s.mutex == Some(u);
  }

  lemma {:induction false} OwnLockKept(s: State, t: Thread, a: Action)
    requires WellNested(StackOf(s, t)) && Do(s, t, a).Some?
    requires HoldsLock(StackOf(s, t)) <==> s.mutex == Some(t)
    ensures var s' := Do(s, t, a).value;
            (HoldsLock(StackOf(s', t)) <==> s'.mutex == Some(t)) &&
            (s'.mutex == s.mutex || (s.mutex.None? && s'.mutex == Some(t)) || (s.mutex == Some(t) && s'.mutex.None?))
  {
  }

  lemma {:induction false} JarKept(s: State, t: Thread, a: Action)
    requires Inv(s) && Do(s, t, a).Some?
    ensures LoginFillsEmptyJar(Do(s, t, a).value) && Conserved(Do(s, t, a).value)
  {
    hide Do;
    OthersKept(s, t, a);
    OwnJar(s, t, a);
    assert WellNested(StackOf(s, t));
    assert HoldsLock(StackOf(s, t)) <==> s.mutex == Some(t);
    forall u: Thread | |StackOf(Do(s, t, a).value, u)| == 2
      ensures Do(s, t, a).value.jar.None?
    {
      if u != t {
        assert WellNested(StackOf(s, u));
        assert HoldsLock(StackOf(s, u)) <==> s.mutex == Some(u);
      }
    }
  }

  /** Only the thread in the middle of a login fills the jar. */
  lemma {:induction false} OwnJar(s: State, t: Thread, a: Action)
    requires WellNested(StackOf(s, t)) && Do(s, t, a).Some? && Conserved(s)
    requires |StackOf(s, t)| == 2 ==> s.jar.None?
    ensures var s' := Do(s, t, a).value;
            Conserved(s') &&
            (|StackOf(s', t)| == 2 ==> s'.jar.None?) &&
            (s.jar.None? && s'.jar.Some? ==> |StackOf(s, t)| == 2)
  {
  }

  lemma {:induction false} InvKept(s: State, t: Thread, a: Action)
    requires Inv(s) && Do(s, t, a).Some?
    ensures Inv(Do(s, t, a).value)
  {
    hide Do, Conserved;
    NestingKept(s, t, a);
    LockMatchesKept(s, t, a);
    JarKept(s, t, a);
  }

  // ------------------------------------------------------------------------------ runs

  function Step(s: State, e: Event<Action>): Option<State> {
    Do(s, e.t, e.a)
  }

  function Run(s: State, schedule: seq<Event<Action>>): Option<State> {
    Schedules.Run(Step, s, schedule)
  }

  lemma {:induction false} Reachable(schedule: seq<Event<Action>>)
    requires Run(INIT, schedule).Some?
    ensures Inv(Run(INIT, schedule).value)
  {
    hide Do;
    assert Inv(INIT);
    forall s: State, e | Inv(s) && Step(s, e).Some? ensures Inv(Step(s, e).value) {
      InvKept(s, e.t, e.a);
    }
    InvHolds(Step, s => Inv(s), INIT, schedule);
  }

  /**
   In every interleaving: logins that set the cookie minus cookies lost is one when the jar
   holds the cookie and zero otherwise, so logins never exceed losses by more than one.
   */
  lemma {:induction false} LoginsAreConserved(schedule: seq<Event<Action>>)
    requires Run(INIT, schedule).Some?
    ensures var s := Run(INIT, schedule).value;
            s.logins - s.losses == (if s.jar.Some? then 1 else 0) && s.logins <= s.losses + 1
  {
    hide Run;
    Reachable(schedule);
  }

  /** A login request is under way. */
  predicate LoggingIn(s: State, t: Thread) {
    exists i :: 0 <= i < |StackOf(s, t)| && StackOf(s, t)[i].inProgress
  }

  /** At most one login request is ever under way, and its thread holds the mutex. */
  lemma {:induction false} OneLogin(schedule: seq<Event<Action>>, t: Thread, u: Thread)
    requires Run(INIT, schedule).Some?
    requires LoggingIn(Run(INIT, schedule).value, t) && LoggingIn(Run(INIT, schedule).value, u)
    ensures t == u && Run(INIT, schedule).value.mutex == Some(t)
  {
    hide Run;
    Reachable(schedule);
    var s := Run(INIT, schedule).value;
    assert WellNested(StackOf(s, t)) && WellNested(StackOf(s, u));
    assert HoldsLock(StackOf(s, t)) && HoldsLock(StackOf(s, u));
  }

  /**
   The login request re-enters RoundTrip but never asks for the mutex that its own thread
   holds, nesting is at most one deep, and the mutex is held from taking it to the end of the
   login only: a request on its way to the server, and a thread that has finished, hold nothing.
   */
  lemma {:induction false} NoSelfDeadlock(schedule: seq<Event<Action>>, t: Thread)
    requires Run(INIT, schedule).Some?
    ensures var s := Run(INIT, schedule).value;
            var stack := StackOf(s, t);
            |stack| <= 2 && (s.mutex == Some(t) <==> HoldsLock(stack)) &&
            (s.mutex == Some(t) ==> stack != [] && forall i :: 0 <= i < |stack| ==> !stack[i].pc.Waiting?)
  {
    hide Run;
    Reachable(schedule);
    var s := Run(INIT, schedule).value;
    assert WellNested(StackOf(s, t));
    assert HoldsLock(StackOf(s, t)) <==> s.mutex == Some(t);
  }

  /** The step that a thread can take next, given an answer to whatever it sent. */
  function NextAction(f: Frame): Action {
    match f.pc
    case Entered => Enter
    case Deciding => Decide(false)
    case Waiting => TakeLock
    case Holding => Recheck(false)
    case LoginSent => Resume
    case LoginBack(_) => Resume
    case InFlight => Receive(NoReply)
    case Refused => ReadJar
    case Discarding => Discard
    case Finished(_, _) => Leave(false)
  }

  predicate CanMove(s: State, t: Thread) {
    StackOf(s, t) != [] && Do(s, t, NextAction(StackOf(s, t)[|StackOf(s, t)| - 1])).Some?
  }

  /** Every thread with a request can move, or waits for a mutex whose holder can. */
  lemma {:induction false} NoDeadlock(schedule: seq<Event<Action>>, t: Thread)
    requires Run(INIT, schedule).Some? && StackOf(Run(INIT, schedule).value, t) != []
    ensures var s := Run(INIT, schedule).value;
            CanMove(s, t) || (s.mutex.Some? && s.mutex.value != t && CanMove(s, s.mutex.value))
  {
    hide Run;
    Reachable(schedule);
    var s := Run(INIT, schedule).value;
    assert WellNested(StackOf(s, t));
    assert HoldsLock(StackOf(s, t)) <==> s.mutex == Some(t);
    if s.mutex.Some? {
      var u := s.mutex.value;
      assert WellNested(StackOf(s, u));
      assert HoldsLock(StackOf(s, u));
    }
  }

  // ------------------------------------------------------------- what a request goes through

  lemma {:induction false} RunCons(s: State, schedule: seq<Event<Action>>)
    requires schedule != []
    ensures Run(s, schedule) ==
            match Step(s, schedule[0]) case None => None case Some(s') => Run(s', schedule[1..])
  {
  }

  /** A predicate on the requests of `t` that holds from some moment on. */
  lemma {:induction false} StaysSo(
      s: State, t: Thread, holds: (State, seq<Frame>) -> bool, schedule: seq<Event<Action>>)
    requires Inv(s) && holds(s, StackOf(s, t)) && Run(s, schedule).Some?
    requires forall s1, e :: Inv(s1) && holds(s1, StackOf(s1, t)) && e in schedule && Step(s1, e).Some? ==>
               holds(Step(s1, e).value, StackOf(Step(s1, e).value, t))
    ensures Inv(Run(s, schedule).value) && holds(Run(s, schedule).value, StackOf(Run(s, schedule).value, t))
    decreases |schedule|
  {
    hide Inv, Do, Step;
    if schedule != [] {
      RunCons(s, schedule);
      assert schedule[0] in schedule;
      StepKeeps(s, schedule[0]);
      StaysSo(Step(s, schedule[0]).value, t, holds, schedule[1..]);
    }
  }

  lemma {:induction false} StepKeeps(s: State, e: Event<Action>)
    requires Inv(s) && Step(s, e).Some?
    ensures Inv(Step(s, e).value)
  {
    InvKept(s, e.t, e.a);
  }

  /** The request that `t` has begun is the same throughout. */
  predicate SameRequest(t: Thread, schedule: seq<Event<Action>>) {
    forall e :: e in schedule && e.t == t ==> e.a != Send
  }

  /** The request has been at the wrapped transport. */
  predicate Sent(pc: Pc) {
    pc.InFlight? || pc.Refused? || pc.Discarding? || (pc.Finished? && pc.answered)
  }

  /** With the mutex in hand, a cookie is found, or a login of its own comes back unfailed. */
  predicate Authenticates(s: State, e: Event<Action>) {
    var stack := StackOf(s, e.t);
    s.mutex == Some(e.t) && stack != [] &&
    ((e.a.Recheck? && |stack| == 1 && s.jar.Some?) ||
     (e.a.Leave? && |stack| == 2 && stack[1].inProgress && stack[1].pc.Finished? && !stack[1].pc.failed))
  }

  /** Somewhere along the schedule `t` authenticates. */
  predicate Authenticated(s: State, t: Thread, schedule: seq<Event<Action>>)
    decreases |schedule|
  {
    schedule != [] && Step(s, schedule[0]).Some? &&
    ((schedule[0].t == t && Authenticates(s, schedule[0])) ||
     Authenticated(Step(s, schedule[0]).value, t, schedule[1..]))
  }

  /** On the way to authenticate, or failed on it. */
  predicate Pending(stack: seq<Frame>) {
    stack == [] ||
    stack[0].pc == Waiting || stack[0].pc == Holding || stack[0].pc == LoginSent || stack[0].pc == LoginBack(true) ||
    stack[0].pc == Finished(true, false)
  }

  lemma {:induction false} PendingStep(s: State, e: Event<Action>, t: Thread)
    requires WellNested(StackOf(s, t)) && (HoldsLock(StackOf(s, t)) <==> s.mutex == Some(t))
    requires Pending(StackOf(s, t)) && Step(s, e).Some?
    requires e.t == t ==> e.a != Send && !Authenticates(s, e)
    ensures Pending(StackOf(Step(s, e).value, t))
  {
    if e.t != t {
      hide Do;
      OthersKept(s, e.t, e.a);
    }
  }

  lemma {:induction false} StaysPending(s: State, t: Thread, schedule: seq<Event<Action>>)
    requires Inv(s) && Pending(StackOf(s, t)) && Run(s, schedule).Some? && SameRequest(t, schedule)
    requires !Authenticated(s, t, schedule)
    ensures Pending(StackOf(Run(s, schedule).value, t))
    decreases |schedule|
  {
    hide Do, Step, Authenticates, Pending;
    if schedule != [] {
      RunCons(s, schedule);
      assert schedule[0] in schedule;
      assert WellNested(StackOf(s, t)) && (HoldsLock(StackOf(s, t)) <==> s.mutex == Some(t));
      PendingStep(s, schedule[0], t);
      StepKeeps(s, schedule[0]);
      StaysPending(Step(s, schedule[0]).value, t, schedule[1..]);
    }
  }

  /** The session cookie can be sent as it is. */
  predicate Fresh(jar: Option<Cookie>) {
    jar.Some? && !jar.value.expiresSoon
  }

  lemma {:induction false} RunSplit(s: State, first: seq<Event<Action>>, e: Event<Action>, second: seq<Event<Action>>)
    requires Run(s, first).Some? && Run(s, first + [e] + second).Some?
    ensures Step(Run(s, first).value, e).Some?
    ensures Run(s, first + [e] + second) == Run(Step(Run(s, first).value, e).value, second)
    decreases |first|
  {
    hide Step;
    var whole := first + [e] + second;
    if first == [] {
      assert whole[0] == e && whole[1..] == second;
    } else {
      assert whole[1..] == first[1..] + [e] + second;
      RunSplit(Step(s, first[0]).value, first[1..], e, second);
    }
  }

  lemma {:induction false} RunIsRun(s: State, schedule: seq<Event<Action>>)
    ensures Run(s, schedule) == Schedules.Run(Step, s, schedule)
  {
  }

  /** The states before and after an event of a schedule. */
  lemma {:induction false} Around(schedule: seq<Event<Action>>, e: Event<Action>, later: seq<Event<Action>>)
    requires Run(INIT, schedule).Some? && Run(INIT, schedule + [e] + later).Some?
    ensures var s := Run(INIT, schedule).value;
            Inv(s) && Step(s, e).Some? && Inv(Step(s, e).value) && Run(INIT, schedule + [e]) == Step(s, e) &&
            Run(INIT, schedule + [e] + later) == Run(Step(s, e).value, later)
  {
    hide Run, Do;
    Reachable(schedule);
    RunSplit(INIT, schedule, e, later);
    RunIsRun(INIT, schedule);
    RunIsRun(INIT, schedule + [e]);
    RunSnoc(Step, INIT, schedule, e);
    StepKeeps(Run(INIT, schedule).value, e);
  }

  lemma {:induction false} DecideTurns(s: State, t: Thread, own: bool)
    requires Inv(s) && Step(s, Event(t, Decide(own))).Some?
    ensures |StackOf(s, t)| == 1 && StackOf(s, t)[0].pc == Deciding
    ensures StackOf(Step(s, Event(t, Decide(own))).value, t) ==
            [Frame(false, if own || Fresh(s.jar) then InFlight else Waiting)]
  {
    assert WellNested(StackOf(s, t));
  }

  /**
   A request that has no cookie of its own, while the session cookie is missing or about to
   expire, is not sent before its thread has taken the mutex and then found a cookie or had a
   login come back unfailed, whatever happens before and in the meantime.
   */
  lemma {:induction false} AuthenticatesFirst(
      schedule: seq<Event<Action>>, t: Thread, later: seq<Event<Action>>)
    requires Run(INIT, schedule).Some? && Run(INIT, schedule + [Event(t, Decide(false))]).Some?
    requires Run(INIT, schedule + [Event(t, Decide(false))] + later).Some?
    requires !Fresh(Run(INIT, schedule).value.jar) && SameRequest(t, later)
    ensures var s' := Run(INIT, schedule + [Event(t, Decide(false))]).value;
            var stack := StackOf(Run(INIT, schedule + [Event(t, Decide(false))] + later).value, t);
            stack != [] && Sent(stack[0].pc) ==> Authenticated(s', t, later)
  {
    hide Run, Do;
    var e := Event(t, Decide(false));
    Around(schedule, e, later);
    var s := Run(INIT, schedule).value;
    DecideTurns(s, t, false);
    if !Authenticated(Step(s, e).value, t, later) {
      StaysPending(Step(s, e).value, t, later);
    }
  }

  /** At the transport, and behind it. */
  predicate Through(stack: seq<Frame>) {
    stack == [] ||
    (|stack| == 1 && !stack[0].inProgress &&
     (stack[0].pc.InFlight? || stack[0].pc.Refused? || stack[0].pc.Discarding? || stack[0].pc.Finished?))
  }

  lemma {:induction false} ThroughStep(s: State, e: Event<Action>, t: Thread)
    requires Through(StackOf(s, t)) && Step(s, e).Some? && (e.t == t ==> e.a != Send)
    ensures Through(StackOf(Step(s, e).value, t))
  {
    if e.t != t {
      hide Do;
      OthersKept(s, e.t, e.a);
    }
  }

  /** A request with a cookie of its own, or with a fresh session cookie, is sent and never asks for the mutex. */
  lemma {:induction false} FreshCookieSuffices(
      schedule: seq<Event<Action>>, t: Thread, own: bool, later: seq<Event<Action>>)
    requires Run(INIT, schedule).Some? && Run(INIT, schedule + [Event(t, Decide(own))]).Some?
    requires Run(INIT, schedule + [Event(t, Decide(own))] + later).Some?
    requires (own || Fresh(Run(INIT, schedule).value.jar)) && SameRequest(t, later)
    ensures StackOf(Run(INIT, schedule + [Event(t, Decide(own))]).value, t) == [Frame(false, InFlight)]
    ensures var s' := Run(INIT, schedule + [Event(t, Decide(own))] + later).value;
            Through(StackOf(s', t)) && s'.mutex != Some(t)
  {
    hide Run, Do, Step, Through;
    var e := Event(t, Decide(own));
    Around(schedule, e, later);
    var s := Run(INIT, schedule).value;
    DecideTurns(s, t, own);
    assert Through([Frame(false, InFlight)]) by {
      InFlightIsThrough();
    }
    forall s1, e1 | Inv(s1) && Through(StackOf(s1, t)) && e1 in later && Step(s1, e1).Some?
      ensures Through(StackOf(Step(s1, e1).value, t))
    {
      ThroughStep(s1, e1, t);
    }
    StaysSo(Step(s, e).value, t, (_, stack) => Through(stack), later);
    ThroughHoldsNothing(Run(INIT, schedule + [e] + later).value, t);
  }

  lemma {:induction false} InFlightIsThrough()
    ensures Through([Frame(false, InFlight)])
  {
  }

  lemma {:induction false} ThroughHoldsNothing(s: State, t: Thread)
    requires Inv(s) && Through(StackOf(s, t))
    ensures s.mutex != Some(t)
  {
    assert HoldsLock(StackOf(s, t)) <==> s.mutex == Some(t);
  }

  /** Before the decision whether it needs a login. */
  predicate Undecided(stack: seq<Frame>) {
    stack == [] || (|stack| == 1 && (stack[0].pc == Entered || stack[0].pc == Deciding))
  }

  lemma {:induction false} UndecidedStep(s: State, e: Event<Action>, t: Thread)
    requires WellNested(StackOf(s, t)) && Undecided(StackOf(s, t)) && Step(s, e).Some?
    requires e.t == t ==> e.a != Send && !e.a.Decide?
    ensures Undecided(StackOf(Step(s, e).value, t))
  {
  }

  /** No request is sent without that decision. */
  lemma {:induction false} EveryRequestDecides(schedule: seq<Event<Action>>, t: Thread, later: seq<Event<Action>>)
    requires Run(INIT, schedule).Some? && Run(INIT, schedule + [Event(t, Send)] + later).Some?
    requires SameRequest(t, later)
    ensures var stack := StackOf(Run(INIT, schedule + [Event(t, Send)] + later).value, t);
            stack != [] && Sent(stack[0].pc) ==> exists own :: Event(t, Decide(own)) in later
  {
    hide Run, Do, Step, Undecided;
    var e := Event(t, Send);
    Around(schedule, e, later);
    var s := Run(INIT, schedule).value;
    SendBegins(s, t);
    if !(exists own :: Event(t, Decide(own)) in later) {
      forall s1, e1 | Inv(s1) && Undecided(StackOf(s1, t)) && e1 in later && Step(s1, e1).Some?
        ensures Undecided(StackOf(Step(s1, e1).value, t))
      {
        assert WellNested(StackOf(s1, t));
        DecideShape(e1);
        UndecidedStep(s1, e1, t);
      }
      StaysSo(Step(s, e).value, t, (_, stack) => Undecided(stack), later);
      UndecidedIsUnsent(StackOf(Run(INIT, schedule + [e] + later).value, t));
    }
  }

  lemma {:induction false} DecideShape(e: Event<Action>)
    ensures e.a.Decide? ==> exists own :: e == Event(e.t, Decide(own))
  {
    if e.a.Decide? {
      assert e == Event(e.t, Decide(e.a.ownCookie));
    }
  }

  lemma {:induction false} SendBegins(s: State, t: Thread)
    requires Step(s, Event(t, Send)).Some?
    ensures Undecided(StackOf(Step(s, Event(t, Send)).value, t))
  {
  }

  lemma {:induction false} UndecidedIsUnsent(stack: seq<Frame>)
    requires Undecided(stack)
    ensures stack != [] ==> !Sent(stack[0].pc)
  {
  }

  /** What becomes of a request whose login is over, unless its own answer fails to arrive. */
  predicate AfterLogin(failed: bool, stack: seq<Frame>) {
    stack == [] ||
    (|stack| == 2 && stack[0].pc == LoginSent && stack[1].pc.Finished? && stack[1].pc.failed == failed) ||
    (|stack| == 1 &&
     if failed then stack[0].pc == LoginBack(true) || stack[0].pc == Finished(true, false)
     else stack[0].pc == LoginBack(false) || Sent(stack[0].pc))
  }

  lemma {:induction false} AfterLoginStep(s: State, e: Event<Action>, t: Thread, failed: bool)
    requires AfterLogin(failed, StackOf(s, t)) && Step(s, e).Some?
    requires e.t == t ==> e.a != Send && e.a != Receive(NoReply)
    ensures AfterLogin(failed, StackOf(Step(s, e).value, t))
  {
    if e.t != t {
      hide Do;
      OthersKept(s, e.t, e.a);
    }
  }

  /**
   A request whose login has failed ends without having been sent. One whose login has not
   failed is sent: unless its own answer fails to arrive, it ends with an answer.
   */
  lemma {:induction false} LoginDecides(schedule: seq<Event<Action>>, t: Thread, later: seq<Event<Action>>)
    requires Run(INIT, schedule).Some? && Run(Run(INIT, schedule).value, later).Some?
    requires var stack := StackOf(Run(INIT, schedule).value, t);
             |stack| == 2 && stack[1].pc.Finished?
    requires SameRequest(t, later) && Event(t, Receive(NoReply)) !in later
    ensures var failed := StackOf(Run(INIT, schedule).value, t)[1].pc.failed;
            var stack := StackOf(Run(Run(INIT, schedule).value, later).value, t);
            |stack| == 1 ==>
              (failed ==> !Sent(stack[0].pc) && (stack[0].pc.Finished? ==> stack[0].pc.failed)) &&
              (!failed && stack[0].pc.Finished? ==> stack[0].pc.answered)
  {
    hide Run, Do, Step;
    Reachable(schedule);
    var s := Run(INIT, schedule).value;
    var failed := StackOf(s, t)[1].pc.failed;
    assert WellNested(StackOf(s, t));
    forall s1, e1 | Inv(s1) && AfterLogin(failed, StackOf(s1, t)) && e1 in later && Step(s1, e1).Some?
      ensures AfterLogin(failed, StackOf(Step(s1, e1).value, t))
    {
      AfterLoginStep(s1, e1, t, failed);
    }
    StaysSo(s, t, (_, stack) => AfterLogin(failed, stack), later);
  }

  // ----------------------------------------------------------------------------- answers

  /** Somewhere along the schedule `t` finds the jar empty or leaves it empty. */
  predicate EmptiesJar(s: State, t: Thread, schedule: seq<Event<Action>>)
    decreases |schedule|
  {
    schedule != [] && Step(s, schedule[0]).Some? &&
    ((schedule[0].t == t && (s.jar.None? || Step(s, schedule[0]).value.jar.None?)) ||
     EmptiesJar(Step(s, schedule[0]).value, t, schedule[1..]))
  }

  /** What a reply makes of the request that receives it, until it is over. */
  predicate Answered(reply: Reply, pc: Pc) {
    match reply
    case NoReply => pc == Finished(true, false)
    case Replied(failed) => pc == Finished(failed, true)
    case Unauthorized => pc == Refused || pc == Discarding || pc == Finished(true, true)
  }

  lemma {:induction false} AnsweredStep(s: State, e: Event<Action>, t: Thread, n: nat, reply: Reply)
    requires |StackOf(s, t)| == n > 0 && Answered(reply, StackOf(s, t)[n - 1].pc) && Step(s, e).Some?
    requires e.t == t ==> e.a != Send && !e.a.Leave?
    ensures var stack := StackOf(Step(s, e).value, t); |stack| == n && Answered(reply, stack[n - 1].pc)
    ensures var pc, pc' := StackOf(s, t)[n - 1].pc, StackOf(Step(s, e).value, t)[n - 1].pc;
            !pc.Finished? && pc'.Finished? ==> e.t == t && (s.jar.None? || Step(s, e).value.jar.None?)
  {
    if e.t != t {
      hide Do;
      OthersKept(s, e.t, e.a);
    }
  }

  lemma {:induction false} StaysAnswered(
      s: State, t: Thread, n: nat, reply: Reply, schedule: seq<Event<Action>>)
    requires |StackOf(s, t)| == n > 0 && Answered(reply, StackOf(s, t)[n - 1].pc) && Run(s, schedule).Some?
    requires forall e :: e in schedule && e.t == t ==> e.a != Send && !e.a.Leave?
    ensures var stack := StackOf(Run(s, schedule).value, t);
            |stack| == n && Answered(reply, stack[n - 1].pc) &&
            (stack[n - 1].pc.Finished? ==> StackOf(s, t)[n - 1].pc.Finished? || EmptiesJar(s, t, schedule))
    decreases |schedule|
  {
    hide Do, Step, Answered;
    if schedule != [] {
      RunCons(s, schedule);
      assert schedule[0] in schedule;
      AnsweredStep(s, schedule[0], t, n, reply);
      StaysAnswered(Step(s, schedule[0]).value, t, n, reply, schedule[1..]);
    }
  }

  /**
   A request ends with the reply that it got. One that was refused with status 401 does not
   end before its thread has found the jar without the session cookie, or dropped that.
   */
  lemma {:induction false} ReplyDecides(
      schedule: seq<Event<Action>>, t: Thread, reply: Reply, later: seq<Event<Action>>)
    requires Run(INIT, schedule).Some? && Run(INIT, schedule + [Event(t, Receive(reply))]).Some?
    requires Run(INIT, schedule + [Event(t, Receive(reply))] + later).Some?
    requires forall e :: e in later && e.t == t ==> e.a != Send && !e.a.Leave?
    ensures var s' := Run(INIT, schedule + [Event(t, Receive(reply))]).value;
            var stack := StackOf(Run(INIT, schedule + [Event(t, Receive(reply))] + later).value, t);
            stack != [] &&
            var pc := stack[|stack| - 1].pc;
            (reply == NoReply ==> pc == Finished(true, false)) &&
            (reply.Replied? ==> pc == Finished(reply.failed, true)) &&
            (reply == Unauthorized ==>
               (pc.Finished? ==> pc == Finished(true, true) && EmptiesJar(s', t, later)) &&
               (!pc.Finished? ==> pc == Refused || pc == Discarding))
  {
    hide Run, Do, Step, EmptiesJar;
    var e := Event(t, Receive(reply));
    Around(schedule, e, later);
    var s := Run(INIT, schedule).value;
    ReceiveAnswers(s, t, reply);
    StaysAnswered(Step(s, e).value, t, |StackOf(s, t)|, reply, later);
  }

  lemma {:induction false} ReceiveAnswers(s: State, t: Thread, reply: Reply)
    requires Step(s, Event(t, Receive(reply))).Some?
    ensures var stack := StackOf(Step(s, Event(t, Receive(reply))).value, t);
            |stack| == |StackOf(s, t)| > 0 && Answered(reply, stack[|stack| - 1].pc) &&
            (reply == Unauthorized ==> !stack[|stack| - 1].pc.Finished?)
  {
  }

  /** A refused request of `t` is only there once it has received a 401. */
  ghost predicate RefusedFits(past: seq<Event<Action>>, s: State, t: Thread) {
    forall i: nat :: IsRefused(StackOf(s, t), i) ==> Event(t, Receive(Unauthorized)) in past
  }

  predicate IsRefused(stack: seq<Frame>, i: nat) {
    i < |stack| && (stack[i].pc.Refused? || stack[i].pc.Discarding?)
  }

  lemma {:induction false} OwnRefused(s: State, e: Event<Action>, i: nat)
    requires Step(s, e).Some? && IsRefused(StackOf(Step(s, e).value, e.t), i)
    ensures IsRefused(StackOf(s, e.t), i) || e.a == Receive(Unauthorized)
  {
  }

  lemma {:induction false} RefusedKept(past: seq<Event<Action>>, s: State, e: Event<Action>, t: Thread)
    requires RefusedFits(past, s, t) && Step(s, e).Some?
    ensures RefusedFits(past + [e], Step(s, e).value, t)
  {
    hide Do, IsRefused;
    var s' := Step(s, e).value;
    OthersKept(s, e.t, e.a);
    forall i: nat | IsRefused(StackOf(s', t), i) ensures Event(t, Receive(Unauthorized)) in past + [e] {
      if e.t == t {
        OwnRefused(s, e, i);
      }
    }
  }

  lemma {:induction false} RefusedHolds(
      past: seq<Event<Action>>, s: State, t: Thread, schedule: seq<Event<Action>>)
    requires RefusedFits(past, s, t) && Run(s, schedule).Some?
    ensures RefusedFits(past + schedule, Run(s, schedule).value, t)
    decreases |schedule|
  {
    hide Do, Step, RefusedFits;
    if schedule == [] {
      assert past + schedule == past;
    } else {
      RunCons(s, schedule);
      RefusedKept(past, s, schedule[0], t);
      RefusedHolds(past + [schedule[0]], Step(s, schedule[0]).value, t, schedule[1..]);
      assert past + [schedule[0]] + schedule[1..] == past + schedule;
    }
  }

  /** The cookie is lost only when it expires or to a thread that has received a 401, and is gained only by a login. */
  lemma {:induction false} CookieChanges(schedule: seq<Event<Action>>, e: Event<Action>)
    requires Run(INIT, schedule).Some? && Run(INIT, schedule + [e] + []).Some?
    ensures var s, s' := Run(INIT, schedule).value, Run(INIT, schedule + [e] + []).value;
            (s.jar.Some? && s'.jar.None? ==>
               e.a == Expire || (e.a == Discard && Event(e.t, Receive(Unauthorized)) in schedule)) &&
            (s.jar.None? && s'.jar.Some? ==>
               e.a == Leave(true) && |StackOf(s, e.t)| == 2 && s'.jar == Some(Cookie(false)) &&
               s.mutex == Some(e.t)) &&
            (s.jar.Some? && s'.jar.Some? && s'.jar != s.jar ==> e.a == Age && s'.jar == Some(Cookie(true)))
  {
    hide Run, RefusedFits;
    Around(schedule, e, []);
    var s := Run(INIT, schedule).value;
    RefusedHolds([], INIT, e.t, schedule) by {
      NothingRefused(e.t);
    }
    assert [] + schedule == schedule;
    RunNothing(Step(s, e).value);
    JarStep(schedule, s, e);
  }

  lemma {:induction false} NothingRefused(t: Thread)
    ensures RefusedFits([], INIT, t)
  {
  }

  lemma {:induction false} RunNothing(s: State)
    ensures Run(s, []) == Some(s)
  {
  }

  lemma {:induction false} JarStep(past: seq<Event<Action>>, s: State, e: Event<Action>)
    requires Inv(s) && RefusedFits(past, s, e.t) && Step(s, e).Some?
    ensures var s' := Step(s, e).value;
            (s.jar.Some? && s'.jar.None? ==>
               e.a == Expire || (e.a == Discard && Event(e.t, Receive(Unauthorized)) in past)) &&
            (s.jar.None? && s'.jar.Some? ==>
               e.a == Leave(true) && |StackOf(s, e.t)| == 2 && s'.jar == Some(Cookie(false)) &&
               s.mutex == Some(e.t)) &&
            (s.jar.Some? && s'.jar.Some? && s'.jar != s.jar ==> e.a == Age && s'.jar == Some(Cookie(true)))
  {
    assert WellNested(StackOf(s, e.t));
    assert HoldsLock(StackOf(s, e.t)) <==> s.mutex == Some(e.t);
    assert |StackOf(s, e.t)| == 2 ==> s.jar.None?;
    var n := |StackOf(s, e.t)|;
    assert !IsRefused(StackOf(s, e.t), if n == 0 then 0 else n - 1) || Event(e.t, Receive(Unauthorized)) in past;
  }

  /** At the transport, or a login on its way there. */
  predicate Unanswered(stack: seq<Frame>, n: nat) {
    |stack| == n > 0 && (stack[n - 1].pc == InFlight || (stack[n - 1].inProgress && stack[n - 1].pc == Entered))
  }

  lemma {:induction false} UnansweredStep(s: State, e: Event<Action>, t: Thread, n: nat)
    requires Unanswered(StackOf(s, t), n) && Step(s, e).Some?
    requires e.t == t ==> e.a != Send && !e.a.Receive?
    ensures Unanswered(StackOf(Step(s, e).value, t), n)
  {
    if e.t != t {
      hide Do;
      OthersKept(s, e.t, e.a);
    }
  }

  /** A request at the transport, and a login from its beginning, is not over before a reply has been received. */
  lemma {:induction false} NobodySkipsTheReply(schedule: seq<Event<Action>>, t: Thread, later: seq<Event<Action>>)
    requires Run(INIT, schedule).Some? && Run(Run(INIT, schedule).value, later).Some?
    requires Unanswered(StackOf(Run(INIT, schedule).value, t), |StackOf(Run(INIT, schedule).value, t)|)
    requires forall e :: e in later && e.t == t ==> e.a != Send && !e.a.Receive?
    ensures var n := |StackOf(Run(INIT, schedule).value, t)|;
            Unanswered(StackOf(Run(Run(INIT, schedule).value, later).value, t), n)
  {
    hide Run, Do, Step, Unanswered;
    Reachable(schedule);
    var s := Run(INIT, schedule).value;
    var n := |StackOf(s, t)|;
    forall s1, e1 | Inv(s1) && Unanswered(StackOf(s1, t), n) && e1 in later && Step(s1, e1).Some?
      ensures Unanswered(StackOf(Step(s1, e1).value, t), n)
    {
      UnansweredStep(s1, e1, t, n);
    }
    StaysSo(s, t, (_, stack) => Unanswered(stack, n), later);
  }

  // ---------------------------------------------------------------- requests are bounded

  function FrameSteps(pc: Pc): nat {
    match pc
    case Finished(_, _) => 1
    case Discarding => 2
    case Refused => 3
    case InFlight => 4
    case LoginBack(_) => 5
    case LoginSent => 6
    case Holding => 12
    case Waiting => 13
    case Deciding => 14
    case Entered => 15
  }

  /** A login request enters and is sent at once. */
  function LoginSteps(pc: Pc): nat {
    if pc.Entered? then 5 else FrameSteps(pc)
  }

  function StepsLeft(stack: seq<Frame>): nat {
    if stack == [] then 0
    else if |stack| == 1 then FrameSteps(stack[0].pc)
    else FrameSteps(stack[0].pc) + LoginSteps(stack[1].pc)
  }

  function OwnSteps(t: Thread, schedule: seq<Event<Action>>): nat
    decreases |schedule|
  {
    if schedule == [] then 0
    else
      (if schedule[0].t == t && schedule[0].a != Age && schedule[0].a != Expire then 1 else 0) +
      OwnSteps(t, schedule[1..])
  }

  lemma {:induction false} StepCounts(s: State, e: Event<Action>, t: Thread)
    requires WellNested(StackOf(s, t)) && Step(s, e).Some? && (e.t == t ==> e.a != Send)
    ensures StepsLeft(StackOf(Step(s, e).value, t)) +
            (if e.t == t && e.a != Age && e.a != Expire then 1 else 0) <= StepsLeft(StackOf(s, t))
  {
    if e.t != t || e.a == Age || e.a == Expire {
      hide StepsLeft;
      StackStays(s, e, t);
    } else if |StackOf(s, t)| == 1 {
      OuterCounts(s, e);
    } else {
      InnerCounts(s, e);
    }
  }

  lemma {:induction false} StackStays(s: State, e: Event<Action>, t: Thread)
    requires Step(s, e).Some? && (e.t != t || e.a == Age || e.a == Expire)
    ensures StackOf(Step(s, e).value, t) == StackOf(s, t)
  {
    if e.t != t {
      hide Do;
      OthersKept(s, e.t, e.a);
    }
  }

  lemma {:induction false} OuterCounts(s: State, e: Event<Action>)
    requires |StackOf(s, e.t)| == 1 && WellNested(StackOf(s, e.t)) && Step(s, e).Some? && e.a != Age && e.a != Expire
    ensures StepsLeft(StackOf(Step(s, e).value, e.t)) < StepsLeft(StackOf(s, e.t))
  {
  }

  lemma {:induction false} InnerCounts(s: State, e: Event<Action>)
    requires |StackOf(s, e.t)| == 2 && WellNested(StackOf(s, e.t)) && Step(s, e).Some? && e.a != Age && e.a != Expire
    ensures StepsLeft(StackOf(Step(s, e).value, e.t)) < StepsLeft(StackOf(s, e.t))
  {
  }

  lemma {:induction false} StepsAreCounted(s: State, t: Thread, schedule: seq<Event<Action>>)
    requires Inv(s) && Run(s, schedule).Some? && SameRequest(t, schedule)
    ensures OwnSteps(t, schedule) + StepsLeft(StackOf(Run(s, schedule).value, t)) <= StepsLeft(StackOf(s, t))
    decreases |schedule|
  {
    hide Do, Step, StepsLeft;
    if schedule != [] {
      RunCons(s, schedule);
      assert schedule[0] in schedule;
      assert WellNested(StackOf(s, t));
      StepCounts(s, schedule[0], t);
      StepKeeps(s, schedule[0]);
      StepsAreCounted(Step(s, schedule[0]).value, t, schedule[1..]);
    }
  }

  /** A request, its login included, takes at most fifteen steps of its own. */
  lemma {:induction false} RequestsAreBounded(
      schedule: seq<Event<Action>>, t: Thread, later: seq<Event<Action>>)
    requires Run(INIT, schedule).Some? && Run(Run(INIT, schedule).value, later).Some? && SameRequest(t, later)
    ensures OwnSteps(t, later) <= 15
  {
    hide Run, Step;
    Reachable(schedule);
    var s := Run(INIT, schedule).value;
    assert WellNested(StackOf(s, t));
    StepsAreCounted(s, t, later);
  }
}
