/** A task's coroutine and the one owner of its frame, which awaits it, detaches it or drops it. They run in any
    interleaving; what decides between them is one atomic word. */
module AwaitableTask {
  import opened Sequences

  datatype Outcome = Value(v: int) | Exception(e: int)

  datatype Word = Empty | Waiter | Completed | Detached

  /** The coroutine runs, is paused somewhere inside, has exchanged the word at its end and found `previous` there,
      rests at its end, or is no more. */
  datatype Body = Active | Paused | Exchanged(previous: Word) | Final | Destroyed

  /** The owner holds the task, has made an awaiter of it and is about to ask whether it is ready or to store itself
      as the waiter, waits, is about to read the result, or has read it; or it is detaching the task; or it is done. */
  datatype Owner = Holding | Checking | Storing | Waiting | Reading | Read(seen: Option<Outcome>) | Detaching | Finished

  /** `bad`: a destroyed frame has been looked at, or a running one destroyed, or a waiter resumed that does not wait.
      `error`: one of the branches for a task that is detached or awaited already has been taken. */
  datatype State = State(
    word: Word, body: Body, outcome: Option<Outcome>, owner: Owner,
    stored: bool, dropped: bool, destroys: nat, resumes: nat, terminated: bool, error: bool, bad: bool)

  const START := State(Empty, Active, None, Holding, false, false, 0, 0, false, false, false)

  datatype Step =
    | Pause | Continue | Finish(outcome: Outcome) | AfterExchange
    | StartAwait | StartDetach | Proceed | Drop

  function Touch(s: State): State { s.(bad := s.bad || s.destroys > 0) }

  /** A frame may be destroyed only where its coroutine is suspended. */
  function Destroy(s: State): State {
    s.(destroys := s.destroys + 1, body := Destroyed, bad := s.bad || s.destroys > 0 || s.body.Active? || s.body.Destroyed?)
  }

  function BodyStep(s: State): State
    requires s.body.Exchanged?
  {
    match s.body.previous
    case Waiter => s.(body := Final, owner := Reading, resumes := s.resumes + 1, bad := s.bad || !s.owner.Waiting?)
    case Detached => if s.outcome.Some? && s.outcome.value.Exception? then s.(terminated := true) else Destroy(s)
    case _ => s.(body := Final)
  }

  function OwnerStep(s: State): State {
    match s.owner
    case Checking => Touch(s).(owner := if s.word.Completed? then Reading else Storing)
    case Storing =>
      if s.word.Empty? then Touch(s).(word := Waiter, stored := true, owner := Waiting)
      else if s.word.Completed? then Touch(s).(owner := Reading)
      else Touch(s).(error := true, owner := Finished)
    case Reading => Touch(s).(owner := Read(s.outcome))
    case Read(_) => Destroy(s).(owner := Finished)
    case Detaching =>
      if s.word.Empty? then Touch(s).(word := Detached, owner := Finished)
      else if s.word.Completed?
      then if s.outcome.Some? && s.outcome.value.Exception? then Touch(s).(terminated := true) else Destroy(s).(owner := Finished)
      else Touch(s).(error := true, owner := Finished)
    case _ => s
  }

  /** A task, or a coroutine that waits for one, is dropped only while the task's coroutine is suspended. */
  predicate Allowed(s: State, step: Step) {
    !s.terminated &&
    match step
    case Pause => s.body.Active?
    case Continue => s.body.Paused?
    case Finish(_) => s.body.Active?
    case AfterExchange => s.body.Exchanged?
    case StartAwait => s.owner.Holding?
    case StartDetach => s.owner.Holding?
    case Proceed => true
    case Drop => (s.owner.Holding? && (s.body.Paused? || s.body.Final? || s.body == Exchanged(Empty)))
                 || (s.owner.Waiting? && s.body.Paused?)
  }

  function Next(s: State, step: Step): State {
    if !Allowed(s, step) then s
    else
      match step
      case Pause => s.(body := Paused)
      case Continue => Touch(s).(body := Active)
      case Finish(outcome) => Touch(s).(outcome := Some(outcome), word := Completed, body := Exchanged(s.word))
      case AfterExchange => BodyStep(s)
      case StartAwait => s.(owner := Checking)
      case StartDetach => s.(owner := Detaching)
      case Proceed => OwnerStep(s)
      case Drop => Destroy(s).(owner := Finished, dropped := true)
  }

  // ----- what every step keeps

  predicate Before(o: Owner) { o.Holding? || o.Checking? || o.Storing? || o.Detaching? }

  predicate After(o: Owner) { o.Reading? || o.Read? }

  ghost predicate Sound(s: State) {
    var w, b, o := s.word, s.body, s.owner;
    && !s.bad && !s.error
    && s.destroys == (if b.Destroyed? then 1 else 0)
    && (s.outcome.Some? <==> w.Completed?)
    && (b.Active? || b.Paused? ==>
          !w.Completed? && !After(o) && (Before(o) <==> w.Empty?) && (o.Waiting? <==> w.Waiter?) && (o.Finished? <==> w.Detached?))
    && (b.Exchanged? ==>
          w.Completed? && match b.previous
                          case Empty => Before(o) || After(o)
                          case Waiter => o.Waiting?
                          case Detached => o.Finished?
                          case Completed => false)
    && (b.Final? ==> w.Completed? && (Before(o) || After(o)))
    && (b.Destroyed? ==> o.Finished?)
    && (o.Read? ==> o.seen == s.outcome && o.seen.Some?)
    && (o.Waiting? ==> s.stored) && (Before(o) ==> !s.stored)
    && s.resumes == (if s.stored && !s.dropped && !o.Waiting? then 1 else 0) && (s.dropped ==> b.Destroyed?)
  }

  lemma BodySound(s: State)
    requires Sound(s) && s.body.Exchanged?
    ensures Sound(BodyStep(s))
  {}

  lemma OwnerSound(s: State)
    requires Sound(s)
    ensures Sound(OwnerStep(s))
  {}

  lemma NextSound(s: State, step: Step)
    requires Sound(s)
    ensures Sound(Next(s, step))
  {
    match step
    case AfterExchange => if s.body.Exchanged? { BodySound(s); }
    case Proceed => OwnerSound(s);
    case _ =>
  }

  function Run(s: State, steps: seq<Step>): State
    decreases |steps|
  {
    if steps == [] then s else Run(Next(s, steps[0]), steps[1..])
  }

  lemma {:induction false} RunSound(s: State, steps: seq<Step>)
    requires Sound(s)
    ensures Sound(Run(s, steps))
    decreases |steps|
  {
    if steps != [] {
      NextSound(s, steps[0]);
      RunSound(Next(s, steps[0]), steps[1..]);
    }
  }

  /** In every interleaving: the frame is destroyed at most once, never while its coroutine runs and never looked at
      afterwards; it is destroyed exactly once when the coroutine and its owner are both through; a stored waiter is
      resumed exactly once unless it was dropped; what is read is what the coroutine ended with; and the branches for
      a task that is already awaited or already detached are never taken. */
  lemma OneOwner(steps: seq<Step>)
    ensures var s := Run(START, steps);
      && !s.bad && !s.error && s.destroys <= 1 && s.resumes <= 1
      && (s.owner.Finished? && !s.body.Active? && !s.body.Paused? && !s.body.Exchanged? ==> s.destroys == 1)
      && (s.stored && !s.owner.Waiting? && !s.dropped ==> s.resumes == 1) && (!s.stored ==> s.resumes == 0)
      && (s.owner.Read? ==> s.outcome.Some? && s.owner.seen == s.outcome)
  {
    RunSound(START, steps);
  }

  /** The program is terminated exactly when a task that nobody will await ends with an exception. */
  lemma TerminatedExactly(s: State, step: Step)
    requires Sound(s) && !s.terminated
    ensures Next(s, step).terminated <==>
      && s.outcome.Some? && s.outcome.value.Exception?
      && ((step.AfterExchange? && s.body == Exchanged(Detached)) || (step.Proceed? && s.owner.Detaching?))
  {}

  /** Whoever waits is sure to go on: when the coroutine has found its waiter, its next step resumes it. */
  lemma WaiterGoesOn(s: State, outcome: Outcome)
    requires Sound(s) && !s.terminated && s.owner.Waiting? && s.body.Active?
    ensures var n := Run(s, [Finish(outcome), AfterExchange, Proceed, Proceed]);
      n.owner.Finished? && n.destroys == 1 && n.resumes == 1
      && Run(s, [Finish(outcome), AfterExchange, Proceed]).owner == Read(Some(outcome))
  {
    var a := Next(s, Finish(outcome));
    NextSound(s, Finish(outcome));
    var b := Next(a, AfterExchange);
    NextSound(a, AfterExchange);
    var c := Next(b, Proceed);
    var d := Next(c, Proceed);
    assert Run(d, []) == d && Run(c, []) == c && Run(c, [Proceed]) == d && Run(b, [Proceed]) == c && Run(b, [Proceed, Proceed]) == d;
    assert Run(a, [AfterExchange, Proceed]) == c && Run(a, [AfterExchange, Proceed, Proceed]) == d;
  }
}
