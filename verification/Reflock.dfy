/** The reference count that lets a port be closed while other threads are still inside it: a thread-safe
    tree hands out references, and the thread that closes the port waits until they have all been dropped. */
module Reflock {
  import opened Sequences

  type Thread = nat

  const WORD: nat := 0x1_0000_0000
  const REF: int := 1
  const REF_LIMIT: nat := 0x1000_0000
  const DESTROY: nat := 0x1000_0000
  const POISON: nat := 0x300d_ead0

  function Add(word: nat, n: int): nat { (word + n) % WORD }

  function RefCount(word: nat): nat { word % REF_LIMIT }

  function TopBits(word: nat): nat { word / REF_LIMIT }

  /** Where a thread is: looking the port up to use it, using it, or closing it. */
  datatype Phase =
    | Outside
    | SharedEntered | SharedFound | SharedReffed | SharedMissed
    | Holding | Signalling
    | ExclusiveEntered | ExclusiveTaken | ExclusiveReffed | ExclusiveMissed
    | Closing | Awaiting | Poisoning | Deleting

  /** The tree's lock has `readers` and a `writer`. The keyed event has a `waiter` and a `signaller`. The `closer` is the
      thread that took the port out of the tree, and `freed` says that it has freed it.
      `failed` says that an assertion of the program has failed. */
  datatype State = State(
    word: nat, inTree: bool, threads: map<Thread, Phase>, readers: set<Thread>, writer: Option<Thread>,
    waiter: Option<Thread>, signaller: Option<Thread>, closer: Option<Thread>, freed: bool, failed: bool, waits: nat, signals: nat)

  predicate InShared(p: Phase) { p.SharedEntered? || p.SharedFound? || p.SharedReffed? || p.SharedMissed? }

  predicate InExclusive(p: Phase) { p.ExclusiveEntered? || p.ExclusiveTaken? || p.ExclusiveReffed? || p.ExclusiveMissed? }

  predicate HoldsRef(p: Phase) { p.SharedReffed? || p.Holding? || p.ExclusiveReffed? || p.Closing? }

  predicate Closes(p: Phase) {
    p.ExclusiveTaken? || p.ExclusiveReffed? || p.Closing? || p.Awaiting? || p.Poisoning? || p.Deleting?
  }

  /** The thread may look at the port's memory. */
  predicate Touches(p: Phase) { p.SharedFound? || HoldsRef(p) || p.Signalling? || Closes(p) }

  function Move(s: State, t: Thread, p: Phase): State { s.(threads := s.threads[t := p]) }

  function Ref(s: State, t: Thread, p: Phase): State {
    var word := Add(s.word, REF);
    Move(s, t, p).(word := word, failed := s.failed || TopBits(word) != 0)
  }

  function Unref(s: State, t: Thread): State {
    var word := Add(s.word, -REF);
    var last := word == DESTROY;
    Move(s, t, if last then Signalling else Outside)
      .(word := word, failed := s.failed || TopBits(word) > 1, signaller := if last then Some(t) else s.signaller)
  }

  function UnrefAndDestroy(s: State, t: Thread): State {
    var word := Add(s.word, DESTROY - REF);
    var waits := RefCount(word) != 0;
    Move(s, t, if waits then Awaiting else Poisoning)
      .(word := word, failed := s.failed || TopBits(word) != 1, waiter := if waits then Some(t) else s.waiter,
        waits := s.waits + if waits then 1 else 0)
  }

  /** Releasing the keyed event goes on only when a thread waits for it, and then lets that one go. */
  function Signal(s: State, t: Thread): State {
    if s.waiter == None then s
    else
      Move(Move(s, s.waiter.value, Poisoning), t, Outside).(waiter := None, signaller := None, signals := s.signals + 1)
  }

  /** The next step of thread `t`, which from outside closes the port if `closes` and uses it otherwise.
      A thread that has to wait for the lock or for the event stays where it is. */
  function Next(s: State, t: Thread, closes: bool): State
    requires t in s.threads
  {
    match s.threads[t]
    case Outside =>
      if s.writer != None || (closes && s.readers != {}) then s
      else if closes then Move(s, t, ExclusiveEntered).(writer := Some(t))
      else Move(s, t, SharedEntered).(readers := s.readers + {t})
    case SharedEntered => Move(s, t, if s.inTree then SharedFound else SharedMissed)
    case SharedFound => Ref(s, t, SharedReffed)
    case SharedReffed => Move(s, t, Holding).(readers := s.readers - {t})
    case SharedMissed => Move(s, t, Outside).(readers := s.readers - {t})
    case Holding => Unref(s, t)
    case Signalling => Signal(s, t)
    case ExclusiveEntered =>
      if s.inTree then Move(s, t, ExclusiveTaken).(inTree := false, closer := Some(t)) else Move(s, t, ExclusiveMissed)
    case ExclusiveTaken => Ref(s, t, ExclusiveReffed)
    case ExclusiveReffed => Move(s, t, Closing).(writer := None)
    case ExclusiveMissed => Move(s, t, Outside).(writer := None)
    case Closing => UnrefAndDestroy(s, t)
    case Awaiting => s
    case Poisoning => Move(s, t, Deleting).(word := POISON, failed := s.failed || s.word != DESTROY)
    case Deleting => Move(s, t, Outside).(freed := true, closer := None)
  }

  // ----- what every step keeps

  function Holders(threads: map<Thread, Phase>): set<Thread> { set t | t in threads && HoldsRef(threads[t]) }

  /** What each thread's phase says about the lock, the event and the port. */
  ghost predicate PhaseOk(s: State, t: Thread)
    requires t in s.threads
  {
    var p := s.threads[t];
    && (InShared(p) <==> t in s.readers) && (InExclusive(p) <==> s.writer == Some(t))
    && (p.Awaiting? <==> s.waiter == Some(t)) && (p.Signalling? <==> s.signaller == Some(t))
    && (Closes(p) <==> s.closer == Some(t))
    && (p.SharedFound? || p.SharedReffed? ==> s.inTree)
  }

  ghost predicate Locked(s: State) {
    && (s.writer != None ==> s.readers == {} && s.writer.value in s.threads)
    && (s.waiter != None ==> s.waiter == s.closer) && (s.signaller != None ==> s.signaller.value in s.threads)
    && (s.closer != None ==> s.closer.value in s.threads)
    && (if s.inTree then s.closer == None && !s.freed else s.closer == None <==> s.freed)
    && forall t <- s.threads :: PhaseOk(s, t)
  }

  function CloserPhase(s: State): Phase {
    if s.closer != None && s.closer.value in s.threads then s.threads[s.closer.value] else Outside
  }

  ghost predicate Counted(s: State) {
    var n, p := |Holders(s.threads)|, CloserPhase(s);
    && !s.failed && |s.threads| < REF_LIMIT
    && (if s.freed || p.Deleting? then n == 0 else s.word == n + (if p.Awaiting? || p.Poisoning? then DESTROY else 0))
    && (p.Poisoning? ==> n == 0)
    && (s.signaller != None <==> p.Awaiting? && n == 0)
    && s.waits == (if p.Awaiting? then s.signals + 1 else s.signals) && s.waits <= 1
    && (s.inTree || p.ExclusiveTaken? || p.ExclusiveReffed? || p.Closing? ==> s.waits == 0)
  }

  ghost predicate Sound(s: State) { Locked(s) && Counted(s) }

  lemma HoldersMoved(threads: map<Thread, Phase>, t: Thread, p: Phase)
    requires t in threads
    ensures |Holders(threads[t := p])| == |Holders(threads)| - (if HoldsRef(threads[t]) then 1 else 0) + (if HoldsRef(p) then 1 else 0)
    ensures |threads[t := p]| == |threads|
  {
    OthersHold(threads, t);
    OthersHold(threads[t := p], t);
    assert threads[t := p] - {t} == threads - {t};
    SameSize(threads, t, p);
  }

  /** The holders are `t`, if it is one, and those among the others. */
  lemma OthersHold(threads: map<Thread, Phase>, t: Thread)
    requires t in threads
    ensures |Holders(threads)| == |Holders(threads - {t})| + (if HoldsRef(threads[t]) then 1 else 0)
  {
    var rest := Holders(threads - {t});
    assert t !in rest && Holders(threads) == rest + (if HoldsRef(threads[t]) then {t} else {});
  }

  lemma SameSize(threads: map<Thread, Phase>, t: Thread, p: Phase)
    requires t in threads
    ensures |threads[t := p]| == |threads|
  {
    assert threads[t := p].Keys == threads.Keys;
    assert |threads[t := p]| == |threads[t := p].Keys| && |threads| == |threads.Keys|;
  }

  lemma FewHolders(s: State)
    ensures |Holders(s.threads)| <= |s.threads|
  {
    SubsetSize(Holders(s.threads), s.threads.Keys);
    assert |s.threads| == |s.threads.Keys|;
  }

  lemma RefCounted(s: State, t: Thread, p: Phase)
    requires Sound(s) && t in s.threads
    requires (s.threads[t].SharedFound? && p.SharedReffed?) || (s.threads[t].ExclusiveTaken? && p.ExclusiveReffed?)
    ensures Counted(Ref(s, t, p))
  {
    assert PhaseOk(s, t);
    HoldersMoved(s.threads, t, p);
    FewHolders(Ref(s, t, p));
  }

  lemma UnrefCounted(s: State, t: Thread)
    requires Sound(s) && t in s.threads && s.threads[t].Holding?
    ensures Counted(Unref(s, t))
  {
    assert PhaseOk(s, t);
    FewHolders(s);
    HoldersMoved(s.threads, t, Outside);
    HoldersMoved(s.threads, t, Signalling);
  }

  lemma DestroyCounted(s: State, t: Thread)
    requires Sound(s) && t in s.threads && s.threads[t].Closing?
    ensures Counted(UnrefAndDestroy(s, t))
  {
    assert PhaseOk(s, t);
    FewHolders(s);
    HoldersMoved(s.threads, t, Awaiting);
    HoldersMoved(s.threads, t, Poisoning);
  }

  lemma SignalCounted(s: State, t: Thread)
    requires Sound(s) && t in s.threads && s.threads[t].Signalling?
    ensures s.waiter != None && Counted(Signal(s, t))
  {
    assert PhaseOk(s, t);
    var w := s.closer.value;
    assert PhaseOk(s, w);
    HoldersMoved(s.threads, w, Poisoning);
    HoldersMoved(s.threads[w := Poisoning], t, Outside);
  }

  lemma LookCounted(s: State, t: Thread, closes: bool)
    requires Sound(s) && t in s.threads && (s.threads[t].Outside? || InShared(s.threads[t])) && !s.threads[t].SharedFound?
    ensures Counted(Next(s, t, closes))
  {
    assert PhaseOk(s, t);
    HoldersMoved(s.threads, t, Next(s, t, closes).threads[t]);
  }

  lemma CloseCounted(s: State, t: Thread, closes: bool)
    requires Sound(s) && t in s.threads
    requires var p := s.threads[t]; (InExclusive(p) && !p.ExclusiveTaken?) || p.Awaiting? || p.Poisoning? || p.Deleting?
    ensures Counted(Next(s, t, closes))
  {
    assert PhaseOk(s, t);
    HoldersMoved(s.threads, t, Next(s, t, closes).threads[t]);
  }

  lemma NextCounted(s: State, t: Thread, closes: bool)
    requires Sound(s) && t in s.threads
    ensures Counted(Next(s, t, closes))
  {
    match s.threads[t]
    case SharedFound => RefCounted(s, t, SharedReffed);
    case ExclusiveTaken => RefCounted(s, t, ExclusiveReffed);
    case Holding => UnrefCounted(s, t);
    case Closing => DestroyCounted(s, t);
    case Signalling => SignalCounted(s, t);
    case Outside | SharedEntered | SharedReffed | SharedMissed => LookCounted(s, t, closes);
    case _ => CloseCounted(s, t, closes);
  }

  lemma NextLocked(s: State, t: Thread, closes: bool)
    requires Locked(s) && t in s.threads && (s.signaller != None ==> s.waiter != None && !s.threads[t].Holding?)
    ensures Locked(Next(s, t, closes))
  {
    var p := s.threads[t];
    if p.Signalling? {
      SignalLocked(s, t);
    } else if p.Holding? || p.Closing? {
      UnrefLocked(s, t, closes);
    } else if HoldsRef(p) || p.SharedFound? || p.ExclusiveTaken? {
      RefLocked(s, t, closes);
    } else if p.Outside? {
      EnterLocked(s, t, closes);
    } else if InShared(p) {
      LookLocked(s, t, closes);
    } else {
      CloseLocked(s, t, closes);
    }
  }

  lemma EnterLocked(s: State, t: Thread, closes: bool)
    requires Locked(s) && t in s.threads && s.threads[t].Outside?
    ensures Locked(Next(s, t, closes))
  {
    var n := Next(s, t, closes);
    forall u | u in n.threads ensures PhaseOk(n, u) { assert PhaseOk(s, u) && PhaseOk(s, t); }
  }

  lemma LookLocked(s: State, t: Thread, closes: bool)
    requires Locked(s) && t in s.threads && InShared(s.threads[t]) && !s.threads[t].SharedFound?
    ensures Locked(Next(s, t, closes))
  {
    var n := Next(s, t, closes);
    forall u | u in n.threads ensures PhaseOk(n, u) { assert PhaseOk(s, u) && PhaseOk(s, t); }
  }

  lemma CloseLocked(s: State, t: Thread, closes: bool)
    requires Locked(s) && t in s.threads
    requires var p := s.threads[t]; p.ExclusiveEntered? || p.ExclusiveMissed? || p.Awaiting? || p.Poisoning? || p.Deleting?
    ensures Locked(Next(s, t, closes))
  {
    var n := Next(s, t, closes);
    forall u | u in n.threads ensures PhaseOk(n, u) { assert PhaseOk(s, u) && PhaseOk(s, t); }
  }

  lemma RefLocked(s: State, t: Thread, closes: bool)
    requires Locked(s) && t in s.threads
    requires var p := s.threads[t]; p.SharedReffed? || p.ExclusiveReffed? || p.SharedFound? || p.ExclusiveTaken?
    ensures Locked(Next(s, t, closes))
  {
    var n := Next(s, t, closes);
    forall u | u in n.threads ensures PhaseOk(n, u) { assert PhaseOk(s, u) && PhaseOk(s, t); }
  }

  lemma UnrefLocked(s: State, t: Thread, closes: bool)
    requires Locked(s) && t in s.threads && (s.threads[t].Closing? || (s.threads[t].Holding? && s.signaller == None))
    ensures Locked(Next(s, t, closes))
  {
    var n := Next(s, t, closes);
    forall u | u in n.threads ensures PhaseOk(n, u) { assert PhaseOk(s, u) && PhaseOk(s, t); }
  }

  lemma SignalLocked(s: State, t: Thread)
    requires Locked(s) && t in s.threads && s.threads[t].Signalling? && s.waiter != None
    ensures Locked(Signal(s, t))
  {
    var n := Signal(s, t);
    assert PhaseOk(s, t) && PhaseOk(s, s.waiter.value);
    forall u | u in n.threads ensures PhaseOk(n, u) { assert PhaseOk(s, u); }
  }

  lemma NextSound(s: State, t: Thread, closes: bool)
    requires Sound(s) && t in s.threads
    ensures Sound(Next(s, t, closes))
  {
    if s.closer != None { assert PhaseOk(s, s.closer.value); }
    assert HoldsRef(s.threads[t]) ==> t in Holders(s.threads);
    NextLocked(s, t, closes);
    NextCounted(s, t, closes);
  }

  // ----- runs

  function Start(threads: set<Thread>): State {
    State(0, true, map t | t in threads :: Outside, {}, None, None, None, None, false, false, 0, 0)
  }

  function Run(s: State, steps: seq<(Thread, bool)>): State
    decreases |steps|
  {
    if steps == [] then s
    else Run(if steps[0].0 in s.threads then Next(s, steps[0].0, steps[0].1) else s, steps[1..])
  }

  lemma StartSound(threads: set<Thread>)
    requires |threads| < REF_LIMIT
    ensures Sound(Start(threads))
  {
    var s := Start(threads);
    assert s.threads.Keys == threads && |s.threads| == |s.threads.Keys|;
    assert Holders(s.threads) == {};
  }

  lemma {:induction false} RunSound(s: State, steps: seq<(Thread, bool)>)
    requires Sound(s)
    ensures Sound(Run(s, steps))
    decreases |steps|
  {
    if steps != [] {
      var (t, closes) := steps[0];
      if t in s.threads { NextSound(s, t, closes); }
      RunSound(if t in s.threads then Next(s, t, closes) else s, steps[1..]);
    }
  }

  /** However fewer than 2^28 threads use and close a port, no assertion fails; whoever deletes the port is the only one
      left that can look at it, and has been signalled exactly once if it waited and not at all otherwise; once the port
      is freed nobody looks at it. */
  lemma DeletedAlone(threads: set<Thread>, steps: seq<(Thread, bool)>)
    requires |threads| < REF_LIMIT
    ensures var s := Run(Start(threads), steps);
      && !s.failed && s.signals <= s.waits <= 1
      && (forall t <- s.threads, u <- s.threads :: s.threads[t].Deleting? && u != t ==> !Touches(s.threads[u]) && s.signals == s.waits)
      && (s.freed ==> forall u <- s.threads :: !Touches(s.threads[u]))
  {
    StartSound(threads);
    RunSound(Start(threads), steps);
    var s := Run(Start(threads), steps);
    forall t, u | t in s.threads && u in s.threads && (s.freed || (s.threads[t].Deleting? && u != t))
      ensures !Touches(s.threads[u])
    {
      assert PhaseOk(s, t) && PhaseOk(s, u);
      assert HoldsRef(s.threads[u]) ==> u in Holders(s.threads);
    }
    forall t | t in s.threads && s.threads[t].Deleting? ensures s.signals == s.waits { assert PhaseOk(s, t); }
  }

  /** Once the port is out of the tree, only the thread that took it out can still gain a reference. */
  lemma NoNewReferences(s: State, t: Thread, closes: bool)
    requires Sound(s) && !s.inTree && t in s.threads
    ensures !Next(s, t, closes).inTree
    ensures forall u <- Holders(Next(s, t, closes).threads) :: u in Holders(s.threads) || s.closer == Some(u)
  {
    var n := Next(s, t, closes);
    assert PhaseOk(s, t);
    forall u | u in Holders(n.threads) ensures u in Holders(s.threads) || s.closer == Some(u) {
      if u != t { assert n.threads[u] == s.threads[u]; }
    }
  }

  // ----- looking the port up

  predicate NoneBy(t: Thread, steps: seq<(Thread, bool)>) { forall step <- steps :: step.0 != t }

  lemma OtherKeeps(s: State, t: Thread, u: Thread, closes: bool)
    requires Sound(s) && t in s.threads && u in s.threads && u != t && (InShared(s.threads[t]) || InExclusive(s.threads[t]))
    ensures var n := Next(s, u, closes); t in n.threads && n.threads[t] == s.threads[t] && n.inTree == s.inTree
  {
    assert PhaseOk(s, t) && PhaseOk(s, u);
    if s.waiter != None { assert PhaseOk(s, s.waiter.value); }
  }

  /** While a thread is inside the tree, nothing that the others do puts it out or takes the port from the tree. */
  lemma {:induction false} OthersKeep(s: State, t: Thread, steps: seq<(Thread, bool)>)
    requires Sound(s) && t in s.threads && (InShared(s.threads[t]) || InExclusive(s.threads[t])) && NoneBy(t, steps)
    ensures var n := Run(s, steps); Sound(n) && t in n.threads && n.threads[t] == s.threads[t] && n.inTree == s.inTree
    decreases |steps|
  {
    if steps != [] {
      var (u, closes) := steps[0];
      assert steps[0] in steps && NoneBy(t, steps[1..]);
      if u in s.threads {
        NextSound(s, u, closes);
        OtherKeeps(s, t, u, closes);
      }
      OthersKeep(if u in s.threads then Next(s, u, closes) else s, t, steps[1..]);
    }
  }

  lemma RefGains(s: State, t: Thread, closes: bool)
    requires Sound(s) && t in s.threads && (s.threads[t].SharedFound? || s.threads[t].ExclusiveTaken?)
    ensures var n := Next(s, t, closes); n.word == s.word + 1 && TopBits(n.word) == 0
    ensures s.threads[t].SharedFound? ==> s.inTree
    ensures s.threads[t].ExclusiveTaken? ==> !s.inTree && s.closer == Some(t)
  {
    assert PhaseOk(s, t);
    FewHolders(s);
    RefCounted(s, t, if s.threads[t].SharedFound? then SharedReffed else ExclusiveReffed);
  }

  /** A thread that looks the port up while it is in the tree finds it and gains a reference by its next two steps,
      whatever the other threads do before and between them. */
  lemma LookUpGains(s: State, t: Thread, before: seq<(Thread, bool)>, between: seq<(Thread, bool)>, closes: bool)
    requires Sound(s) && t in s.threads && s.threads[t].SharedEntered? && s.inTree && NoneBy(t, before) && NoneBy(t, between)
    ensures t in Run(s, before).threads
    ensures var found := Run(Next(Run(s, before), t, closes), between);
      && t in found.threads && !HoldsRef(found.threads[t])
      && var n := Next(found, t, closes);
         n.inTree && n.threads == found.threads[t := SharedReffed] && n.word == found.word + 1 && TopBits(n.word) == 0
  {
    OthersKeep(s, t, before);
    NextSound(Run(s, before), t, closes);
    OthersKeep(Next(Run(s, before), t, closes), t, between);
    RefGains(Run(Next(Run(s, before), t, closes), between), t, closes);
  }

  /** A thread that looks the port up when it is not in the tree leaves without a reference and without having touched it. */
  lemma LookUpMisses(s: State, t: Thread, before: seq<(Thread, bool)>, between: seq<(Thread, bool)>, closes: bool)
    requires Sound(s) && t in s.threads && s.threads[t].SharedEntered? && !s.inTree && NoneBy(t, before) && NoneBy(t, between)
    ensures t in Run(s, before).threads
    ensures var missed := Run(Next(Run(s, before), t, closes), between);
      && t in missed.threads && !Touches(missed.threads[t])
      && Next(missed, t, closes) == missed.(threads := missed.threads[t := Outside], readers := missed.readers - {t})
  {
    OthersKeep(s, t, before);
    NextSound(Run(s, before), t, closes);
    OthersKeep(Next(Run(s, before), t, closes), t, between);
  }

  /** A thread that closes the port while it is in the tree takes it out and gains a reference by its next two steps. */
  lemma CloseTakes(s: State, t: Thread, before: seq<(Thread, bool)>, between: seq<(Thread, bool)>, closes: bool)
    requires Sound(s) && t in s.threads && s.threads[t].ExclusiveEntered? && s.inTree && NoneBy(t, before) && NoneBy(t, between)
    ensures t in Run(s, before).threads
    ensures var taken := Run(Next(Run(s, before), t, closes), between);
      && t in taken.threads && !HoldsRef(taken.threads[t]) && !taken.inTree && taken.closer == Some(t)
      && var n := Next(taken, t, closes);
         n.threads == taken.threads[t := ExclusiveReffed] && n.word == taken.word + 1 && TopBits(n.word) == 0
  {
    OthersKeep(s, t, before);
    NextSound(Run(s, before), t, closes);
    OthersKeep(Next(Run(s, before), t, closes), t, between);
    RefGains(Run(Next(Run(s, before), t, closes), between), t, closes);
  }

  /** A thread that would close the port when it is not in the tree leaves with nothing. */
  lemma CloseMisses(s: State, t: Thread, before: seq<(Thread, bool)>, between: seq<(Thread, bool)>, closes: bool)
    requires Sound(s) && t in s.threads && s.threads[t].ExclusiveEntered? && !s.inTree && NoneBy(t, before) && NoneBy(t, between)
    ensures t in Run(s, before).threads
    ensures var missed := Run(Next(Run(s, before), t, closes), between);
      && t in missed.threads && !Touches(missed.threads[t])
      && Next(missed, t, closes) == missed.(threads := missed.threads[t := Outside], writer := None)
  {
    OthersKeep(s, t, before);
    NextSound(Run(s, before), t, closes);
    OthersKeep(Next(Run(s, before), t, closes), t, between);
  }

  /** A closer that waits is never forgotten: a reference is still held, or its signal is on the way and goes through. */
  lemma NeverStuck(s: State, t: Thread)
    requires Sound(s) && t in s.threads && s.threads[t].Awaiting?
    ensures Holders(s.threads) != {} || (s.signaller != None && s.signaller.value in s.threads
              && Next(s, s.signaller.value, false).threads[t].Poisoning?)
  {
    assert PhaseOk(s, t);
    if s.signaller != None { assert PhaseOk(s, s.signaller.value); }
  }
}
