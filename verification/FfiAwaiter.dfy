/** A coroutine that waits for one call from foreign code. The coroutine and the call run in any interleaving; each
    step below is one hold of the shared state's mutex or one atomic operation. */
module FfiAwaiter {
  import opened Sequences

  /** What the foreign call brings: a value, an exception thrown while the value was stored, or a cancellation. */
  datatype Outcome = Value(v: int) | Exception(e: int) | Cancellation

  /** What the coroutine sees when it goes on. The last two are errors of the protocol. */
  datatype Seen = Got(outcome: Outcome) | NotCompleted | NoValue

  /** Where the coroutine is. `Received` runs on, `Cleared` is half way through the destructor of its awaiter. */
  datatype Coroutine = NotStarted | Armed | Referenced | Initiated | Suspended | Running | Received(seen: Seen) | Cleared | Gone

  datatype Foreign = Uncalled | Called(outcome: Outcome) | Decided(resumes: bool) | Releasing | Done

  /** `frees`, `resumes` and `bad` are bookkeeping: how often the state has been freed and the coroutine been
      continued, and whether the freed state has been looked at or a coroutine resumed that was not suspended. */
  datatype State = State(
    refs: int, completed: bool, cancelled: bool, suspended: bool, armed: bool, coro: bool, exc: Option<int>, result: Option<int>,
    coroutine: Coroutine, foreign: Foreign, given: Option<Outcome>, torn: bool, frees: nat, resumes: nat, bad: bool)

  const START := State(1, false, false, false, false, false, None, None, NotStarted, Uncalled, None, false, 0, 0, false)

  datatype Step = Await | TearDown | Call(outcome: Outcome) | Proceed

  function Touch(s: State): State { s.(bad := s.bad || s.frees > 0) }

  function Release(s: State): State {
    var t := Touch(s);
    t.(refs := t.refs - 1, frees := t.frees + if t.refs == 1 then 1 else 0)
  }

  /** `await_suspend`, `await_resume` and the destructor of the awaiter, step by step. */
  function AwaitStep(s: State): State {
    match s.coroutine
    case NotStarted => Touch(s).(coro := true, suspended := false, armed := true, coroutine := Armed)
    case Armed => Touch(s).(refs := s.refs + 1, coroutine := Referenced)
    case Referenced => s.(coroutine := Initiated)
    case Initiated =>
      if s.completed then Touch(s).(coro := false, suspended := false, coroutine := Running, resumes := s.resumes + 1)
      else Touch(s).(suspended := true, coroutine := Suspended)
    case Suspended => s
    case Running =>
      if !s.completed then Touch(s).(coroutine := Received(NotCompleted))
      else
        var t := Touch(s).(coro := false, suspended := false);
        if s.exc.Some? then t.(coroutine := Received(Got(Exception(s.exc.value))))
        else if s.cancelled then t.(coroutine := Received(Got(Cancellation)))
        else if s.result == None then t.(coroutine := Received(NoValue))
        else t.(coroutine := Received(Got(Value(s.result.value))), result := None)
    case Received(_) => Touch(s).(coro := false, suspended := false, coroutine := Cleared)
    case Cleared => Release(s).(coroutine := Gone)
    case Gone => s
  }

  /** The coroutine's frame is destroyed while it is suspended, or before it ever awaits. */
  function TearDownStep(s: State): State {
    Touch(s).(coro := false, suspended := false, coroutine := Cleared, torn := true)
  }

  /** `ffi_resume_impl` and `ffi_cancel_impl`, step by step. */
  function ForeignStep(s: State): State {
    match s.foreign
    case Called(outcome) =>
      if !s.armed then Touch(s).(foreign := Done)
      else
        Touch(s).(armed := false, completed := true, cancelled := outcome.Cancellation?,
                  result := if outcome.Value? then Some(outcome.v) else s.result,
                  exc := if outcome.Exception? then Some(outcome.e) else s.exc,
                  foreign := Decided(s.suspended && s.coro))
    case Decided(resumes) =>
      if !resumes then s.(foreign := Releasing)
      else s.(foreign := Releasing, coroutine := Running, resumes := s.resumes + 1, bad := s.bad || !s.coroutine.Suspended?)
    case Releasing => Release(s).(foreign := Done)
    case _ => s
  }

  /** The foreign side calls once, after it has been given the handle, and the frame is not destroyed during that call. */
  predicate Allowed(s: State, step: Step) {
    match step
    case Call(_) =>
      s.foreign.Uncalled? && s.armed && !s.coroutine.Armed? && !s.coroutine.Referenced?
    case TearDown =>
      s.coroutine.NotStarted? || (s.coroutine.Suspended? && (s.foreign.Uncalled? || s.foreign.Done?))
    case _ => true
  }

  function Next(s: State, step: Step): State {
    if !Allowed(s, step) then s
    else
      match step
      case Await => AwaitStep(s)
      case TearDown => TearDownStep(s)
      case Call(outcome) => s.(foreign := Called(outcome), given := Some(outcome))
      case Proceed => ForeignStep(s)
  }

  // ----- what every step keeps

  /** The coroutine went on by itself or was resumed. */
  predicate Continued(s: State) { s.coroutine.Running? || s.coroutine.Received? || ((s.coroutine.Cleared? || s.coroutine.Gone?) && !s.torn) }

  /** The foreign side owns a reference from the time it is made for it until its call is over. */
  predicate ForeignOwns(s: State) { (s.armed && !s.coroutine.Armed?) || s.foreign.Decided? || s.foreign.Releasing? }

  /** What the call brought is what the state holds, until the coroutine takes the value. */
  ghost predicate Holds(s: State, o: Outcome) {
    && s.cancelled == o.Cancellation?
    && s.exc == (if o.Exception? then Some(o.e) else None)
    && (o.Value? && (s.coroutine.Initiated? || s.coroutine.Suspended? || s.coroutine.Running?) ==> s.result == Some(o.v))
  }

  ghost predicate Sound(s: State) {
    var c, f := s.coroutine, s.foreign;
    && !s.bad && s.resumes == (if Continued(s) then 1 else 0)
    && s.refs == (if c.Gone? then 0 else 1) + (if ForeignOwns(s) then 1 else 0) && s.frees == (if s.refs == 0 then 1 else 0)
    && (f.Uncalled? <==> s.given == None) && (f.Called? ==> s.given == Some(f.outcome))
    && (c.NotStarted? || c.Armed? || c.Referenced? ==> f.Uncalled?)
    && (s.armed ==> !c.NotStarted? && (f.Uncalled? || f.Called?))
    && (c.Armed? || c.Referenced? || f.Called? || ((c.Initiated? || c.Suspended?) && f.Uncalled?) ==> s.armed)
    && (s.completed <==> f.Decided? || f.Releasing? || f.Done?)
    && (s.completed ==> Holds(s, s.given.value))
    && (!s.completed ==> !s.cancelled && s.exc == None && s.result == None)
    && (c.Armed? || c.Referenced? || c.Initiated? ==> s.coro)
    && (c.Suspended? ==> s.suspended && s.coro) && (s.suspended ==> c.Suspended? || c.Running?)
    && (f.Decided? && f.resumes ==> c.Suspended?) && (c.Suspended? ==> f.Uncalled? || f.Called? || (f.Decided? && f.resumes))
    && (c.Running? || c.Received? ==> s.completed)
    && (c.Received? ==> c.seen == Got(s.given.value))
    && (s.torn ==> c.Cleared? || c.Gone?)
  }

  lemma NotStartedSound(s: State)
    requires Sound(s) && s.coroutine.NotStarted?
    ensures Sound(AwaitStep(s))
  {}

  lemma ArmedSound(s: State)
    requires Sound(s) && s.coroutine.Armed?
    ensures Sound(AwaitStep(s))
  {}

  lemma ReferencedSound(s: State)
    requires Sound(s) && s.coroutine.Referenced?
    ensures Sound(AwaitStep(s))
  {}

  lemma InitiatedSound(s: State)
    requires Sound(s) && s.coroutine.Initiated?
    ensures Sound(AwaitStep(s))
  {}

  lemma RunningSound(s: State)
    requires Sound(s) && s.coroutine.Running?
    ensures Sound(AwaitStep(s))
  {}

  lemma ReceivedSound(s: State)
    requires Sound(s) && s.coroutine.Received?
    ensures Sound(AwaitStep(s))
  {}

  lemma ClearedSound(s: State)
    requires Sound(s) && s.coroutine.Cleared?
    ensures Sound(AwaitStep(s))
  {}

  lemma CalledSound(s: State)
    requires Sound(s) && s.foreign.Called?
    ensures Sound(ForeignStep(s))
  {}

  lemma DecidedSound(s: State)
    requires Sound(s) && s.foreign.Decided?
    ensures Sound(ForeignStep(s))
  {}

  lemma ReleasingSound(s: State)
    requires Sound(s) && s.foreign.Releasing?
    ensures Sound(ForeignStep(s))
  {}

  lemma TearDownSound(s: State)
    requires Sound(s) && Allowed(s, TearDown)
    ensures Sound(TearDownStep(s))
  {}

  lemma NextSound(s: State, step: Step)
    requires Sound(s)
    ensures Sound(Next(s, step))
  {
    if Allowed(s, step) {
      match step
      case TearDown => TearDownSound(s);
      case Call(_) =>
      case Await =>
        match s.coroutine {
          case NotStarted => NotStartedSound(s);
          case Armed => ArmedSound(s);
          case Referenced => ReferencedSound(s);
          case Initiated => InitiatedSound(s);
          case Running => RunningSound(s);
          case Received(_) => ReceivedSound(s);
          case Cleared => ClearedSound(s);
          case _ =>
        }
      case Proceed =>
        match s.foreign {
          case Called(_) => CalledSound(s);
          case Decided(_) => DecidedSound(s);
          case Releasing => ReleasingSound(s);
          case _ =>
        }
    }
  }

  function Run(s: State, steps: seq<Step>): State
    decreases |steps|
  {
    if steps == [] then s else Run(Next(s, steps[0]), steps[1..])
  }

  lemma {:induction false} RunSound(s: State, steps: seq<Step>)
    requires Sound(s)
    ensures Sound(Run(s, steps))
    decreases |steps|
  {
    if steps != [] {
      NextSound(s, steps[0]);
      RunSound(Next(s, steps[0]), steps[1..]);
    }
  }

  /** In every interleaving the coroutine goes on at most once, and exactly once if its frame survives a call that is
      over; it sees precisely what the call brought; the state is never looked at after it has been freed, is freed at
      most once, and is freed when both sides are through with it. */
  lemma OneContinuation(steps: seq<Step>)
    ensures var s := Run(START, steps); var c, f := s.coroutine, s.foreign;
      && !s.bad && s.frees <= 1 && s.resumes <= 1
      && (f.Done? && !s.torn && !c.Initiated? ==> s.resumes == 1)
      && (c.Received? ==> s.given.Some? && c.seen == Got(s.given.value))
      && (c.Gone? && (f.Done? || !s.armed) && !f.Decided? && !f.Releasing? ==> s.frees == 1)
  {
    RunSound(START, steps);
  }

  /** How many steps the coroutine is from its end, once the foreign call is over. */
  function Remaining(c: Coroutine): nat {
    match c
    case Initiated => 4
    case Running => 3
    case Received(_) => 2
    case Cleared => 1
    case _ => 0
  }

  function Awaits(n: nat): seq<Step> { seq(n, _ => Await) }

  /** Neither side is ever stuck for want of the other: once the call is over, the coroutine's own steps take it
      to its end, and the state is freed. */
  lemma {:induction false} RunsToItsEnd(s: State)
    requires Sound(s) && s.foreign.Done?
    ensures var e := Run(s, Awaits(Remaining(s.coroutine))); e.coroutine.Gone? && e.frees == 1
    decreases Remaining(s.coroutine)
  {
    if !s.coroutine.Gone? {
      NextSound(s, Await);
      var n := Remaining(s.coroutine);
      assert Awaits(n)[1..] == Awaits(n - 1);
      assert Remaining(Next(s, Await).coroutine) == n - 1;
      RunsToItsEnd(Next(s, Await));
    }
  }

  /** Why the frame must outlive the call: destroying it between the call's decision to resume and the resumption
      resumes a coroutine that is not suspended, always. */
  lemma TornDuringCall(s: State)
    requires Sound(s) && s.foreign.Decided? && s.foreign.resumes
    ensures s.coroutine.Suspended? && ForeignStep(TearDownStep(s)).bad && !ForeignStep(s).bad
  {
    DecidedSound(s);
  }
}
