/** circuitbreaker.Go: the race between a routine, the breaker that runs it, and the caller's context
    to deliver one result. Any interleaving of the steps below is a run. */
module CircuitBreaker {
  import opened Common

  datatype Error =
    | Timeout | CircuitOpen | MaxConcurrency   // the breaker's own errors
    | FallbackFailed(id: int)                  // the breaker's report that a fallback failed
    | ContextError(id: int)
    | RoutinePanic(id: int)
    | Returned(id: int, canceled: bool, readOnly: bool, reply: bool)

  /** What a routine can hand to the error handler: an error it returned, or its recovered panic. */
  predicate RoutineError(e: Error) {
    e.RoutinePanic? || e.Returned?
  }

  /** What a user error handler says: the error is no threat, or what the breaker should track. */
  datatype Verdict = Verdict(nonThreat: bool, tracked: Option<Error>)

  /** The two options that matter; fallback returns nil (None) or an error. */
  datatype Options = Options(handler: Error -> Verdict, fallback: Option<Error -> Option<Error>>)

  datatype Routine =
    | NotStarted
    | Rejected
    | Running
    | Handling(outcome: Option<Error>)   // returned, or recovered from a panic
    | Sending(soft: Option<Error>)       // about to send on the soft channel
    | Finished(output: Option<Error>)    // what the breaker is told
    | Reported(output: Option<Error>)

  datatype Breaker =
    | Waiting
    | Failing(cause: Error)      // about to try the fallback or send on the fatal channel
    | SendingNil                 // the fallback returned nil: about to send nil on the soft channel
    | Settled

  /** Both channels have room for one element, and so has the one the caller reads from;
      `outcome` records what the routine returned. */
  datatype State = State(
    routine: Routine, breaker: Breaker,
    soft: seq<Option<Error>>, fatal: seq<Error>,
    ctx: Option<Error>, delivered: Option<Option<Error>>,
    outcome: Option<Option<Error>>, timedOut: bool)

  const START := State(NotStarted, Waiting, [], [], None, None, None, false)

  datatype Event =
    | Start | Reject(why: Error) | Expire | Return(outcome: Option<Error>)
    | Handle | SendSoft | Report | Fail | SendNil
    | TakeSoft | TakeFatal | TakeContext
    | Cancel(id: int)

  predicate Enabled(s: State, ev: Event) {
    match ev
    case Start => s.routine.NotStarted?
    case Reject(why) => s.routine.NotStarted? && (why.CircuitOpen? || why.MaxConcurrency?)
    case Expire => s.breaker.Waiting? && !s.routine.Rejected?
    case Return(o) => s.routine.Running? && (o.Some? ==> RoutineError(o.value))
    case Handle => s.routine.Handling?
    case SendSoft => s.routine.Sending? && |s.soft| == 0
    case Report => s.routine.Finished?
    case Fail => s.breaker.Failing? && |s.fatal| == 0
    case SendNil => s.breaker.SendingNil? && |s.soft| == 0
    case TakeSoft => s.delivered.None? && |s.soft| > 0
    case TakeFatal => s.delivered.None? && |s.fatal| > 0
    case TakeContext => s.delivered.None? && s.ctx.Some?
    case Cancel(_) => s.ctx.None?
  }

  function Step(o: Options, s: State, ev: Event): State
    requires Enabled(s, ev)
  {
    match ev
    case Start => s.(routine := Running)
    case Reject(why) =>
      s.(routine := Rejected, breaker := if s.breaker.Waiting? then Failing(why) else s.breaker)
    case Expire => s.(breaker := Failing(Timeout), timedOut := true)
    case Return(e) => s.(routine := Handling(e), outcome := Some(e))
    case Handle =>
      if s.routine.outcome.None? then s.(routine := Sending(None))
      else
        var v := o.handler(s.routine.outcome.value);
        s.(routine := if v.nonThreat then Sending(s.routine.outcome) else Finished(v.tracked))
    case SendSoft => s.(routine := Finished(None), soft := [s.routine.soft])
    case Report =>
      s.(routine := Reported(s.routine.output),
         breaker := if !s.breaker.Waiting? then s.breaker
                    else if s.routine.output.Some? then Failing(s.routine.output.value) else Settled)
    case Fail =>
      if o.fallback.None? then s.(breaker := Settled, fatal := [s.breaker.cause])
      else
        match o.fallback.value(s.breaker.cause) {
          case None => s.(breaker := SendingNil)
          case Some(e) => s.(breaker := Settled, fatal := [FallbackFailed(0)])
        }
    case SendNil => s.(breaker := Settled, soft := [None])
    case TakeSoft => s.(delivered := Some(s.soft[0]), soft := [])
    case TakeFatal => s.(delivered := Some(Some(s.fatal[0])), fatal := [])
    case TakeContext => s.(delivered := Some(s.ctx))
    case Cancel(id) => s.(ctx := Some(ContextError(id)))
  }

  /** The state after a sequence of events, each enabled in its turn. */
  ghost predicate Possible(o: Options, evs: seq<Event>)
    decreases |evs|, 0
  {
    evs == [] || (Possible(o, evs[..|evs| - 1]) && Enabled(After(o, evs[..|evs| - 1]), evs[|evs| - 1]))
  }

  ghost function After(o: Options, evs: seq<Event>): State
    requires Possible(o, evs)
    decreases |evs|, 1
  {
    if evs == [] then START else Step(o, After(o, evs[..|evs| - 1]), evs[|evs| - 1])
  }

  // ------------------------------------------------------------------------------------------
  // Every run ends: only finitely many steps are possible, whatever the order.

  function RoutineSteps(r: Routine): nat {
    match r
    case NotStarted => 7
    case Running => 6
    case Handling(_) => 5
    case Sending(_) => 4
    case Finished(_) => 2
    case Rejected => 0
    case Reported(_) => 0
  }

  function StepsLeft(s: State): nat {
    RoutineSteps(s.routine)
    + (match s.breaker case Waiting => 4 case Failing(_) => 3 case SendingNil => 2 case Settled => 0)
    + (if s.delivered.None? then 1 else 0)
    + (if s.ctx.None? then 1 else 0)
  }

  lemma StepsRunOut(o: Options, s: State, ev: Event)
    requires Enabled(s, ev)
    ensures StepsLeft(Step(o, s, ev)) < StepsLeft(s)
  {
  }

  // ------------------------------------------------------------------------------------------
  // What holds in every run.

  /** The routine has not used the soft channel and still may. */
  predicate MaySendSoft(r: Routine) {
    r.NotStarted? || r.Running? || r.Handling? || r.Sending?
  }

  /** What the breaker is told about a routine that ended with this outcome. */
  function Told(o: Options, outcome: Option<Error>): Option<Error> {
    if outcome.None? || o.handler(outcome.value).nonThreat then None else o.handler(outcome.value).tracked
  }

  predicate SoftOutcome(o: Options, outcome: Option<Error>) {
    outcome.None? || o.handler(outcome.value).nonThreat
  }

  /** Where the routine stands and what it returned agree. */
  ghost predicate RoutineOk(o: Options, s: State) {
    match s.routine
    case Handling(out) => s.outcome == Some(out)
    case Sending(e) => s.outcome == Some(e) && SoftOutcome(o, e)
    case Finished(out) => s.outcome.Some? && out == Told(o, s.outcome.value)
    case Reported(out) => s.outcome.Some? && out == Told(o, s.outcome.value)
    case _ => s.outcome.None?
  }

  /** An error the breaker may come up with. */
  ghost predicate BreakerError(o: Options, s: State, e: Error) {
    || (s.timedOut && e == Timeout)
    || (s.routine.Rejected? && (e == CircuitOpen || e == MaxConcurrency))
    || (s.outcome.Some? && Told(o, s.outcome.value) == Some(e))
  }

  /** Without a fallback, what the soft channel and the fatal channel carry. */
  ghost predicate Plain(o: Options, s: State) {
    ChannelsOk(o, s) && CausesOk(o, s) && DeliveredOk(o, s)
  }

  ghost predicate ChannelsOk(o: Options, s: State) {
    && |s.soft| <= 1 && |s.fatal| <= 1 && !s.breaker.SendingNil?
    && (s.soft != [] ==> s.outcome == Some(s.soft[0]) && SoftOutcome(o, s.soft[0]) && !MaySendSoft(s.routine))
    && (s.breaker.Waiting? || s.breaker.Failing? ==> s.fatal == [])
  }

  ghost predicate CausesOk(o: Options, s: State) {
    && (s.breaker.Failing? ==> BreakerError(o, s, s.breaker.cause))
    && (s.fatal != [] ==> BreakerError(o, s, s.fatal[0]))
  }

  ghost predicate DeliveredOk(o: Options, s: State) {
    s.delivered.Some? ==>
      || (s.ctx.Some? && s.delivered.value == s.ctx)
      || (s.delivered.value.Some? && BreakerError(o, s, s.delivered.value.value))
      || (s.outcome == Some(s.delivered.value) && SoftOutcome(o, s.delivered.value))
  }

  ghost predicate RoutineErrors(s: State) {
    s.outcome.Some? && s.outcome.value.Some? ==> RoutineError(s.outcome.value.value)
  }

  /** There is a result, or one in a channel for the caller. */
  predicate HasResult(s: State) { s.delivered.Some? || s.soft != [] || s.fatal != [] }

  /** Nothing is lost on the way, with or without a fallback: once the breaker has settled there is a
      result, and a routine it heard no error of has sent one. */
  ghost predicate NothingLost(s: State) {
    && (s.breaker.Settled? ==> HasResult(s))
    && (s.breaker.Waiting? ==> !s.routine.Rejected? && !s.routine.Reported?)
    && ((s.routine.Finished? || s.routine.Reported?) && s.routine.output.None? ==> HasResult(s))
  }

  lemma StepKeepsRoutine(o: Options, s: State, ev: Event)
    requires Enabled(s, ev) && RoutineOk(o, s)
    ensures RoutineOk(o, Step(o, s, ev))
  {
  }

  lemma StepKeepsChannels(o: Options, s: State, ev: Event)
    requires o.fallback.None? && Enabled(s, ev) && RoutineOk(o, s) && ChannelsOk(o, s)
    ensures ChannelsOk(o, Step(o, s, ev))
  {
  }

  /** What the breaker may come up with only grows. */
  lemma CausesLast(o: Options, s: State, ev: Event, e: Error)
    requires Enabled(s, ev) && RoutineOk(o, s) && BreakerError(o, s, e)
    ensures BreakerError(o, Step(o, s, ev), e)
  {
  }

  lemma StepKeepsCauses(o: Options, s: State, ev: Event)
    requires o.fallback.None? && Enabled(s, ev) && RoutineOk(o, s) && ChannelsOk(o, s) && CausesOk(o, s)
    ensures CausesOk(o, Step(o, s, ev))
  {
    if s.breaker.Failing? { CausesLast(o, s, ev, s.breaker.cause); }
    if s.fatal != [] { CausesLast(o, s, ev, s.fatal[0]); }
  }

  lemma StepKeepsDelivered(o: Options, s: State, ev: Event)
    requires Enabled(s, ev) && RoutineOk(o, s) && Plain(o, s)
    ensures DeliveredOk(o, Step(o, s, ev))
  {
    if s.delivered.Some? && s.delivered.value.Some? && BreakerError(o, s, s.delivered.value.value) {
      CausesLast(o, s, ev, s.delivered.value.value);
    }
  }

  /** The handler never turns a threat into no error at all. */
  ghost predicate HandlerTracksThreats(o: Options) {
    forall e :: RoutineError(e) && !o.handler(e).nonThreat ==> o.handler(e).tracked.Some?
  }

  lemma StepLosesNothing(o: Options, s: State, ev: Event)
    requires HandlerTracksThreats(o) && Enabled(s, ev)
    requires RoutineOk(o, s) && RoutineErrors(s) && NothingLost(s)
    ensures NothingLost(Step(o, s, ev))
  {
  }

  lemma {:induction false} RunKeeps(o: Options, evs: seq<Event>)
    requires Possible(o, evs)
    ensures RoutineOk(o, After(o, evs)) && RoutineErrors(After(o, evs))
    ensures o.fallback.None? ==> Plain(o, After(o, evs))
    ensures HandlerTracksThreats(o) ==> NothingLost(After(o, evs))
    decreases |evs|
  {
    if evs != [] {
      var init, ev := evs[..|evs| - 1], evs[|evs| - 1];
      RunKeeps(o, init);
      StepKeepsRoutine(o, After(o, init), ev);
      if o.fallback.None? {
        StepKeepsChannels(o, After(o, init), ev);
        StepKeepsCauses(o, After(o, init), ev);
        StepKeepsDelivered(o, After(o, init), ev);
      }
      if HandlerTracksThreats(o) {
        StepLosesNothing(o, After(o, init), ev);
      }
    }
  }

  /** Nothing can happen any more but the caller cancelling its context. */
  ghost predicate Quiet(s: State) {
    forall ev :: Enabled(s, ev) ==> ev.Cancel?
  }

  /** Without a fallback, no send ever has to wait. */
  lemma SendsNeverBlock(o: Options, evs: seq<Event>)
    requires o.fallback.None? && Possible(o, evs)
    ensures var s := After(o, evs);
            && (s.routine.Sending? ==> Enabled(s, SendSoft))
            && (s.breaker.Failing? ==> Enabled(s, Fail))
  {
    RunKeeps(o, evs);
  }

  /** Once delivered, the result does not change. */
  lemma DeliveredOnce(o: Options, s: State, ev: Event)
    requires Enabled(s, ev) && s.delivered.Some?
    ensures Step(o, s, ev).delivered == s.delivered
  {
  }

  lemma QuietIsDelivered(o: Options, evs: seq<Event>)
    requires HandlerTracksThreats(o) && Possible(o, evs) && Quiet(After(o, evs))
    ensures After(o, evs).delivered.Some?
  {
    RunKeeps(o, evs);
    var s := After(o, evs);
    assert !Enabled(s, Expire) && !Enabled(s, Fail) && !Enabled(s, SendNil);
    assert !Enabled(s, TakeSoft) && !Enabled(s, TakeFatal);
  }

  /** A threat that the handler maps to nil is never reported to anyone: the caller waits until its
      context ends. */
  lemma NilThreatIsLost(o: Options, e: Error) returns (evs: seq<Event>)
    requires RoutineError(e) && o.handler(e) == Verdict(false, None)
    ensures Possible(o, evs) && Quiet(After(o, evs)) && After(o, evs).delivered.None?
  {
    evs := [];
    evs := Extend(o, evs, Start);
    evs := Extend(o, evs, Return(Some(e)));
    evs := Extend(o, evs, Handle);
    evs := Extend(o, evs, Report);
    assert After(o, evs) == START.(routine := Reported(None), outcome := Some(Some(e)), breaker := Settled);
  }

  lemma Extend(o: Options, evs: seq<Event>, ev: Event) returns (longer: seq<Event>)
    requires Possible(o, evs) && Enabled(After(o, evs), ev)
    ensures Possible(o, longer) && After(o, longer) == Step(o, After(o, evs), ev)
  {
    longer := evs + [ev];
    assert longer[..|longer| - 1] == evs;
  }

  /** Whatever the fallback, every run that has come to rest has delivered a result exactly when the
      handler never maps a routine's threat to nil. */
  lemma DeliveredIffThreatsTracked(o: Options)
    ensures HandlerTracksThreats(o) <==>
            forall evs :: Possible(o, evs) && Quiet(After(o, evs)) ==> After(o, evs).delivered.Some?
  {
    if HandlerTracksThreats(o) {
      forall evs | Possible(o, evs) && Quiet(After(o, evs)) ensures After(o, evs).delivered.Some? {
        QuietIsDelivered(o, evs);
      }
    } else {
      var e :| RoutineError(e) && !o.handler(e).nonThreat && o.handler(e).tracked.None?;
      var evs := NilThreatIsLost(o, e);
    }
  }

  /** Where a delivered result comes from: nil only from a routine that returned nil, a routine's own
      error only when the handler calls it no threat, and then the breaker is told of success. */
  lemma DeliveredResult(o: Options, evs: seq<Event>)
    requires o.fallback.None? && Possible(o, evs) && After(o, evs).delivered.Some?
    ensures var s := After(o, evs);
            match s.delivered.value {
              case None => s.outcome == Some(None)
              case Some(e) =>
                || s.ctx == Some(e)
                || (s.timedOut && e == Timeout)
                || (s.routine.Rejected? && (e == CircuitOpen || e == MaxConcurrency))
                || (s.outcome == Some(Some(e)) && o.handler(e).nonThreat && Told(o, Some(e)) == None)
                || (exists r ::
                      s.outcome == Some(Some(r)) && !o.handler(r).nonThreat && o.handler(r).tracked == Some(e))
            }
  {
    RunKeeps(o, evs);
  }

  /** When neither the context nor the breaker's clock interferes, the caller gets what the routine
      returned, or what the handler made of it when it is a threat. */
  lemma UndisturbedResult(o: Options, evs: seq<Event>)
    requires o.fallback.None? && HandlerTracksThreats(o) && Possible(o, evs) && Quiet(After(o, evs))
    requires After(o, evs).ctx.None? && !After(o, evs).timedOut && After(o, evs).outcome.Some?
    ensures var s := After(o, evs);
            s.delivered == Some(if SoftOutcome(o, s.outcome.value) then s.outcome.value else Told(o, s.outcome.value))
  {
    RunKeeps(o, evs);
    QuietIsDelivered(o, evs);
  }

  // ------------------------------------------------------------------------------------------
  // With a fallback there are two senders on the soft channel.

  /** A send that can never complete: its channel is full and its one reader is done. */
  ghost predicate Stuck(s: State) {
    || ((s.routine.Sending? || s.breaker.SendingNil?) && |s.soft| > 0 && s.delivered.Some?)
    || (s.breaker.Failing? && |s.fatal| > 0)
  }

  ghost predicate GetsStuck(o: Options, evs: seq<Event>) {
    Possible(o, evs) && Stuck(After(o, evs))
  }

  /** The fallback turns a timeout into success. */
  predicate HidesTimeout(o: Options) {
    o.fallback.Some? && o.fallback.value(Timeout).None?
  }

  predicate RoutineIsOut(r: Routine) {
    r.Rejected? || (r.Reported? && r.output.Some?)
  }

  ghost predicate OneSoftSender(s: State) {
    && (MaySendSoft(s.routine) ==> s.soft == [])
    && (s.breaker.Waiting? ==> s.fatal == [])
    && (s.breaker.Waiting? && s.routine.Finished? && s.routine.output.Some? ==> s.soft == [])
    && (s.breaker.Failing? ==>
          s.fatal == [] && (s.breaker.cause == Timeout || (RoutineIsOut(s.routine) && s.soft == [])))
    && (s.breaker.SendingNil? ==> s.soft == [] && RoutineIsOut(s.routine))
  }

  lemma StepKeepsOneSoftSender(o: Options, s: State, ev: Event)
    requires !HidesTimeout(o) && Enabled(s, ev) && OneSoftSender(s)
    ensures OneSoftSender(Step(o, s, ev))
  {
  }

  lemma {:induction false} OneSoftSenderInRun(o: Options, evs: seq<Event>)
    requires !HidesTimeout(o) && Possible(o, evs)
    ensures OneSoftSender(After(o, evs))
    decreases |evs|
  {
    if evs != [] {
      OneSoftSenderInRun(o, evs[..|evs| - 1]);
      StepKeepsOneSoftSender(o, After(o, evs[..|evs| - 1]), evs[|evs| - 1]);
    }
  }

  /** The timed-out call has been answered with nil, the caller left with its context's error, and
      now the routine comes back to a full channel that nobody reads. */
  lemma LateRoutineGetsStuck(o: Options) returns (evs: seq<Event>)
    requires HidesTimeout(o)
    ensures Possible(o, evs) && Stuck(After(o, evs))
  {
    evs := [];
    evs := Extend(o, evs, Start);
    evs := Extend(o, evs, Expire);
    evs := Extend(o, evs, Fail);
    evs := Extend(o, evs, SendNil);
    evs := Extend(o, evs, Cancel(0));
    evs := Extend(o, evs, TakeContext);
    evs := Extend(o, evs, Return(None));
    evs := Extend(o, evs, Handle);
  }

  /** Some send can get stuck exactly when there is a fallback that returns nil for a timeout. */
  lemma StuckIffFallbackHidesTimeout(o: Options)
    ensures HidesTimeout(o) <==> exists evs :: GetsStuck(o, evs)
  {
    if HidesTimeout(o) {
      var evs := LateRoutineGetsStuck(o);
      assert GetsStuck(o, evs);
    } else {
      forall evs ensures !GetsStuck(o, evs) {
        if Possible(o, evs) { OneSoftSenderInRun(o, evs); }
      }
    }
  }

  // ------------------------------------------------------------------------------------------
  // Where results come from with any fallback.

  /** The breaker has had an error that the fallback turns into nil. */
  ghost predicate Hidden(o: Options, s: State) {
    o.fallback.Some? && exists e :: BreakerError(o, s, e) && o.fallback.value(e).None?
  }

  /** It has had one for which the fallback fails too. */
  ghost predicate FallenThrough(o: Options, s: State) {
    o.fallback.Some? && exists e :: BreakerError(o, s, e) && o.fallback.value(e).Some?
  }

  /** From the routine, when the handler calls it no threat, or nil from the fallback. */
  ghost predicate SoftSource(o: Options, s: State, x: Option<Error>) {
    (s.outcome == Some(x) && SoftOutcome(o, x)) || (x.None? && Hidden(o, s))
  }

  ghost predicate FatalSource(o: Options, s: State, e: Error) {
    if o.fallback.None? then BreakerError(o, s, e) else e.FallbackFailed? && FallenThrough(o, s)
  }

  ghost predicate InFlightOk(o: Options, s: State) {
    && |s.soft| <= 1 && |s.fatal| <= 1
    && (s.soft != [] ==> SoftSource(o, s, s.soft[0])) && (s.fatal != [] ==> FatalSource(o, s, s.fatal[0]))
    && (s.breaker.Failing? ==> BreakerError(o, s, s.breaker.cause))
    && (s.breaker.SendingNil? ==> Hidden(o, s))
  }

  ghost predicate AnswerOk(o: Options, s: State) {
    s.delivered.Some? ==>
      || (s.ctx.Some? && s.delivered.value == s.ctx)
      || SoftSource(o, s, s.delivered.value)
      || (s.delivered.value.Some? && FatalSource(o, s, s.delivered.value.value))
  }

  lemma SourcesLast(o: Options, s: State, ev: Event)
    requires Enabled(s, ev) && RoutineOk(o, s)
    ensures Hidden(o, s) ==> Hidden(o, Step(o, s, ev))
    ensures FallenThrough(o, s) ==> FallenThrough(o, Step(o, s, ev))
  {
    forall e | BreakerError(o, s, e) ensures BreakerError(o, Step(o, s, ev), e) {
      CausesLast(o, s, ev, e);
    }
  }

  lemma StepKeepsInFlight(o: Options, s: State, ev: Event)
    requires Enabled(s, ev) && RoutineOk(o, s) && InFlightOk(o, s)
    ensures InFlightOk(o, Step(o, s, ev))
  {
    SourcesLast(o, s, ev);
    if s.breaker.Failing? { CausesLast(o, s, ev, s.breaker.cause); }
    if s.fatal != [] && BreakerError(o, s, s.fatal[0]) { CausesLast(o, s, ev, s.fatal[0]); }
  }

  lemma StepKeepsAnswer(o: Options, s: State, ev: Event)
    requires Enabled(s, ev) && RoutineOk(o, s) && InFlightOk(o, s) && AnswerOk(o, s)
    ensures AnswerOk(o, Step(o, s, ev))
  {
    SourcesLast(o, s, ev);
    if s.fatal != [] && BreakerError(o, s, s.fatal[0]) { CausesLast(o, s, ev, s.fatal[0]); }
    if s.delivered.Some? && s.delivered.value.Some? && BreakerError(o, s, s.delivered.value.value) {
      CausesLast(o, s, ev, s.delivered.value.value);
    }
  }

  lemma {:induction false} RunKeepsAnswer(o: Options, evs: seq<Event>)
    requires Possible(o, evs)
    ensures InFlightOk(o, After(o, evs)) && AnswerOk(o, After(o, evs))
    decreases |evs|
  {
    if evs != [] {
      var init, ev := evs[..|evs| - 1], evs[|evs| - 1];
      RunKeepsAnswer(o, init);
      RunKeeps(o, init);
      StepKeepsInFlight(o, After(o, init), ev);
      StepKeepsAnswer(o, After(o, init), ev);
    }
  }

  /** With a fallback, nil is delivered only for a routine that returned nil, or for an error of the
      breaker that the fallback turns into nil; an error is the context's, the routine's own when it is
      no threat, or says that the fallback failed on an error of the breaker. */
  lemma DeliveredWithFallback(o: Options, evs: seq<Event>)
    requires o.fallback.Some? && Possible(o, evs) && After(o, evs).delivered.Some?
    ensures var s := After(o, evs);
            match s.delivered.value {
              case None =>
                s.outcome == Some(None) || exists e :: BreakerError(o, s, e) && o.fallback.value(e) == None
              case Some(e) =>
                || s.ctx == Some(e)
                || (s.outcome == Some(Some(e)) && o.handler(e).nonThreat)
                || (e.FallbackFailed? && exists cause :: BreakerError(o, s, cause) && o.fallback.value(cause).Some?)
            }
  {
    RunKeepsAnswer(o, evs);
  }

  /** The errors the breaker comes up with: a timeout, a refusal, or what the handler tracks for a threat. */
  lemma BreakerErrors(o: Options, s: State, e: Error)
    ensures BreakerError(o, s, e) <==>
            || (s.timedOut && e == Timeout)
            || (s.routine == Rejected && e in {CircuitOpen, MaxConcurrency})
            || (exists r :: s.outcome == Some(Some(r)) && !o.handler(r).nonThreat && o.handler(r).tracked == Some(e))
  {
  }

  // ------------------------------------------------------------------------------------------
  // The handler the limiter installs by default.

  predicate Canceled(e: Error) { e.Returned? && e.canceled }
  predicate ReadOnly(e: Error) { e.Returned? && e.readOnly }
  predicate RedisReply(e: Error) { e.Returned? && e.reply }

  function ShouldCount(e: Option<Error>): bool {
    if e.None? then false
    else if Canceled(e.value) then false
    else if ReadOnly(e.value) then true
    else if RedisReply(e.value) then false
    else true
  }

  const DEFAULT := Options((e: Error) => Verdict(!ShouldCount(Some(e)), Some(e)), None)

  /** With the limiter's options every call gets an answer without a stuck send, and an undisturbed
      caller sees the routine's own result. */
  lemma LimiterCalls(evs: seq<Event>)
    requires Possible(DEFAULT, evs)
    ensures !Stuck(After(DEFAULT, evs))
    ensures Quiet(After(DEFAULT, evs)) ==> After(DEFAULT, evs).delivered.Some?
    ensures var s := After(DEFAULT, evs);
            Quiet(s) && s.ctx.None? && !s.timedOut && s.outcome.Some? ==> s.delivered == s.outcome
  {
    OneSoftSenderInRun(DEFAULT, evs);
    if Quiet(After(DEFAULT, evs)) {
      QuietIsDelivered(DEFAULT, evs);
      if After(DEFAULT, evs).ctx.None? && !After(DEFAULT, evs).timedOut && After(DEFAULT, evs).outcome.Some? {
        UndisturbedResult(DEFAULT, evs);
      }
    }
  }

  /** The breaker hears of an error exactly when it is neither a cancellation nor an ordinary Redis
      reply, a READONLY reply being no ordinary one. */
  lemma LimiterReports(r: Error)
    ensures Told(DEFAULT, Some(r)) == if Canceled(r) || (RedisReply(r) && !ReadOnly(r)) then None else Some(r)
  {
  }
}
