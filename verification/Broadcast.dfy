/** The condition-variable workers and the broadcaster of thread/thread.c lines 69-139, for any
    number of workers, as an interleaving of atomic steps.

    Each worker tests the flag once, with `if`, around `pthread_cond_wait`; a sleeping worker may
    also wake up without a broadcast.  */
module Broadcast {
  datatype Pc =
    | Lock      // pthread_mutex_lock
    | Test      // act = thread_active; if (!act)
    | Sleep     //   asleep in pthread_cond_wait, the mutex released
    | Woken     //   awake, waiting for the mutex
    | Clear     // thread_active = 0
    | Unlock    // pthread_mutex_unlock
    | Working   // the round's work

  /** Where the broadcaster is in `test_cond`. */
  datatype MainPc =
    | Init      // thread_active = 0, without the mutex, after creating the workers
    | MainLock | MainSet | MainBroadcast | MainUnlock

  datatype Holder = Nobody | Broadcaster | Worker(id: nat)

  datatype State = State(
    flag: bool,          // thread_active
    mutex: Holder,
    workers: seq<Pc>,
    main: MainPc,
    rounds: nat,         // rounds of work completed
    broadcasts: nat,
    spurious: nat)       // wakeups without a broadcast

  datatype Choice = Turn(id: nat) | Wakeup(id: nat) | MainTurn

  predicate Initial(s: State) {
    && !s.flag && s.mutex == Nobody && s.main == Init
    && s.rounds == 0 && s.broadcasts == 0 && s.spurious == 0
    && forall i :: 0 <= i < |s.workers| ==> s.workers[i] == Lock
  }

  function Goto(s: State, i: nat, pc: Pc): State
    requires i < |s.workers|
  {
    s.(workers := s.workers[i := pc])
  }

  /** The next step of worker `i`; a blocked worker stays where it is. */
  function WorkerStep(s: State, i: nat): State
    requires i < |s.workers|
  {
    match s.workers[i]
    case Lock => if s.mutex == Nobody then Goto(s, i, Test).(mutex := Worker(i)) else s
    case Test => if s.flag then Goto(s, i, Clear) else Goto(s, i, Sleep).(mutex := Nobody)
    case Sleep => s
    case Woken => if s.mutex == Nobody then Goto(s, i, Clear).(mutex := Worker(i)) else s
    case Clear => Goto(s, i, Unlock).(flag := false)
    case Unlock => Goto(s, i, Working).(mutex := Nobody)
    case Working => Goto(s, i, Lock).(rounds := s.rounds + 1)
  }

  /** Everybody who sleeps wakes up. */
  function WakeAll(workers: seq<Pc>): (r: seq<Pc>)
    ensures |r| == |workers|
  {
    seq(|workers|, i requires 0 <= i < |workers| => if workers[i] == Sleep then Woken else workers[i])
  }

  function MainStep(s: State): State {
    match s.main
    case Init => s.(flag := false, main := MainLock)
    case MainLock => if s.mutex == Nobody then s.(mutex := Broadcaster, main := MainSet) else s
    case MainSet => s.(flag := true, main := MainBroadcast)
    case MainBroadcast =>
      s.(workers := WakeAll(s.workers), broadcasts := s.broadcasts + 1, main := MainUnlock)
    case MainUnlock => s.(mutex := Nobody, main := MainLock)
  }

  function Step(s: State, a: Choice): State {
    match a
    case Turn(i) => if i < |s.workers| then WorkerStep(s, i) else s
    case Wakeup(i) =>
      if i < |s.workers| && s.workers[i] == Sleep then Goto(s, i, Woken).(spurious := s.spurious + 1) else s
    case MainTurn => MainStep(s)
  }

  function Run(s: State, choices: seq<Choice>): State {
    if choices == [] then s else Step(Run(s, choices[..|choices| - 1]), choices[|choices| - 1])
  }

  // ----- Mutual exclusion and no lost wakeup -----

  /** Positions inside the critical section. */
  predicate Inside(pc: Pc) { pc.Test? || pc.Clear? || pc.Unlock? }

  predicate MainInside(pc: MainPc) { pc.MainSet? || pc.MainBroadcast? || pc.MainUnlock? }

  /** Exactly the holder of the mutex is inside. */
  predicate Exclusive(s: State) {
    && (s.mutex == Broadcaster <==> MainInside(s.main))
    && (forall i :: 0 <= i < |s.workers| ==> (Inside(s.workers[i]) <==> s.mutex == Worker(i)))
    && (s.mutex.Worker? ==> s.mutex.id < |s.workers|)
  }

  /** While the flag is set nobody sleeps, except between the two statements with which the
      broadcaster, holding the mutex, sets it and wakes everybody up; and the flag is still clear
      when a worker that has seen it clear falls asleep. */
  predicate NoLostWakeup(s: State) {
    && (s.flag && !s.main.MainBroadcast? ==> forall i :: 0 <= i < |s.workers| ==> !s.workers[i].Sleep?)
    && (s.main.MainBroadcast? || s.main.MainUnlock? ==> s.flag)
    && (s.main.Init? ==> !s.flag)
    && (s.mutex.Worker? && s.mutex.id < |s.workers| && s.workers[s.mutex.id].Unlock? ==> !s.flag)
  }

  // ----- The potential -----

  /** The worker has passed the gate and not finished its round. */
  predicate Passed(pc: Pc) { pc.Woken? || pc.Clear? || pc.Unlock? || pc.Working? }

  function CountPassed(workers: seq<Pc>): nat {
    if workers == [] then 0
    else CountPassed(workers[..|workers| - 1]) + (if Passed(workers[|workers| - 1]) then 1 else 0)
  }

  function CountSleeping(workers: seq<Pc>): nat {
    if workers == [] then 0
    else CountSleeping(workers[..|workers| - 1]) + (if workers[|workers| - 1].Sleep? then 1 else 0)
  }

  /** Somebody could still pass the gate by finding the flag set: it is set for good, the worker
      that holds the mutex, if any, has not passed on it, and not everybody is already awake and
      bound to clear it. */
  predicate Open(s: State) {
    && s.flag && !s.main.MainBroadcast?
    && !(s.mutex.Worker? && s.mutex.id < |s.workers| && s.workers[s.mutex.id].Clear?)
    && exists i :: 0 <= i < |s.workers| && !s.workers[i].Woken?
  }

  function Potential(s: State): nat {
    s.rounds + CountPassed(s.workers) + (if Open(s) then 1 else 0)
  }

  predicate Bounded(s: State) {
    Potential(s) <= |s.workers| * s.broadcasts + s.spurious
  }

  predicate Invariant(s: State) { Exclusive(s) && NoLostWakeup(s) && Bounded(s) }

  lemma {:induction false} CountUpdate(workers: seq<Pc>, i: nat, pc: Pc)
    requires i < |workers|
    ensures CountPassed(workers[i := pc]) ==
      CountPassed(workers) - (if Passed(workers[i]) then 1 else 0) + (if Passed(pc) then 1 else 0)
  {
    var n := |workers| - 1;
    if i < n {
      CountUpdate(workers[..n], i, pc);
      assert workers[i := pc][..n] == workers[..n][i := pc];
    } else {
      assert workers[i := pc][..n] == workers[..n];
    }
  }

  lemma {:induction false} CountWakeAll(workers: seq<Pc>)
    ensures CountPassed(WakeAll(workers)) == CountPassed(workers) + CountSleeping(workers)
    ensures CountSleeping(workers) <= |workers|
    ensures CountSleeping(workers) == |workers| ==> forall i :: 0 <= i < |workers| ==> workers[i].Sleep?
  {
    if workers != [] {
      var n := |workers| - 1;
      CountWakeAll(workers[..n]);
      assert WakeAll(workers)[..n] == WakeAll(workers[..n]);
      if CountSleeping(workers) == |workers| {
        assert forall i :: 0 <= i < n ==> workers[..n][i] == workers[i];
      }
    }
  }

  lemma WorkerKeepsOrder(s: State, i: nat)
    requires Exclusive(s) && NoLostWakeup(s) && i < |s.workers|
    ensures Exclusive(WorkerStep(s, i)) && NoLostWakeup(WorkerStep(s, i))
  {
  }

  lemma WorkerKeepsBound(s: State, i: nat)
    requires Invariant(s) && i < |s.workers|
    ensures Bounded(WorkerStep(s, i))
  {
    var t := WorkerStep(s, i);
    if t != s {
      CountUpdate(s.workers, i, t.workers[i]);
    }
  }

  lemma WakeupKeeps(s: State, i: nat)
    requires Invariant(s) && i < |s.workers| && s.workers[i] == Sleep
    ensures Invariant(Step(s, Wakeup(i)))
  {
    CountUpdate(s.workers, i, Woken);
  }

  lemma MainKeeps(s: State)
    requires Invariant(s)
    ensures Invariant(MainStep(s))
  {
    if s.main.MainBroadcast? {
      CountWakeAll(s.workers);
      BroadcastKeepsBound(s);
    }
  }

  lemma BroadcastKeepsBound(s: State)
    requires Invariant(s) && s.main.MainBroadcast?
    ensures Bounded(MainStep(s))
  {
    var t := MainStep(s);
    CountWakeAll(s.workers);
    if CountSleeping(s.workers) == |s.workers| {
      assert forall i :: 0 <= i < |s.workers| ==> t.workers[i].Woken?;
    }
    assert |s.workers| * (s.broadcasts + 1) == |s.workers| * s.broadcasts + |s.workers|;
  }

  lemma StepKeeps(s: State, a: Choice)
    requires Invariant(s)
    ensures Invariant(Step(s, a)) && |Step(s, a).workers| == |s.workers|
  {
    hide Invariant, MainStep, Bounded;
    match a
    case Turn(i) =>
      if i < |s.workers| {
        WorkerParts(s, i);
      }
    case Wakeup(i) =>
      if i < |s.workers| && s.workers[i] == Sleep {
        WakeupKeeps(s, i);
      }
    case MainTurn =>
      MainKeeps(s);
      MainSize(s);
  }

  lemma MainSize(s: State)
    ensures |MainStep(s).workers| == |s.workers|
  {
  }

  lemma WorkerParts(s: State, i: nat)
    requires Invariant(s) && i < |s.workers|
    ensures Invariant(WorkerStep(s, i))
  {
    hide WorkerStep, Bounded, Exclusive, NoLostWakeup;
    WorkerKeepsOrder(s, i);
    WorkerKeepsBound(s, i);
  }

  lemma {:induction false} InitialInvariant(s: State)
    requires Initial(s)
    ensures Invariant(s)
  {
    NobodyPassed(s.workers);
  }

  lemma {:induction false} NobodyPassed(workers: seq<Pc>)
    requires forall i :: 0 <= i < |workers| ==> workers[i] == Lock
    ensures CountPassed(workers) == 0
  {
    if workers != [] {
      NobodyPassed(workers[..|workers| - 1]);
    }
  }

  lemma {:induction false} RunKeeps(s: State, choices: seq<Choice>)
    requires Initial(s)
    ensures Invariant(Run(s, choices)) && |Run(s, choices).workers| == |s.workers|
  {
    hide Invariant, Step;
    if choices == [] {
      InitialInvariant(s);
    } else {
      RunKeeps(s, choices[..|choices| - 1]);
      StepKeeps(Run(s, choices[..|choices| - 1]), choices[|choices| - 1]);
    }
  }

  /** No broadcast is missed: in every run, while the flag is set no worker is asleep, but for the
      moment between setting the flag and broadcasting, when the broadcaster holds the mutex. */
  lemma NobodyOversleeps(s0: State, choices: seq<Choice>, i: nat)
    requires Initial(s0) && i < |s0.workers|
    ensures var s := Run(s0, choices);
      && i < |s.workers|
      && (s.flag && s.workers[i].Sleep? ==> s.main.MainBroadcast? && s.mutex == Broadcaster)
  {
    hide Run;
    RunKeeps(s0, choices);
  }

  /** Mutual exclusion: two different parties are never both between lock and unlock. */
  lemma MutualExclusion(s0: State, choices: seq<Choice>, i: nat, j: nat)
    requires Initial(s0) && i < |s0.workers| && j < |s0.workers|
    ensures var s := Run(s0, choices);
      && i < |s.workers| && j < |s.workers|
      && (Inside(s.workers[i]) && Inside(s.workers[j]) ==> i == j)
      && (Inside(s.workers[i]) ==> !MainInside(s.main))
  {
    hide Run;
    RunKeeps(s0, choices);
  }

  /** Although the flag is tested with `if` and not `while`, the N workers complete in every run at
      most N rounds for each broadcast, and one more for each spurious wakeup. */
  lemma RoundsBounded(s0: State, choices: seq<Choice>)
    requires Initial(s0)
    ensures var s := Run(s0, choices);
      s.rounds + CountPassed(s.workers) <= |s0.workers| * s.broadcasts + s.spurious
  {
    hide Run;
    RunKeeps(s0, choices);
  }

  /** The program of the source has two workers. */
  lemma TwoWorkers(s0: State, choices: seq<Choice>)
    requires Initial(s0) && |s0.workers| == 2
    ensures var s := Run(s0, choices); s.rounds <= 2 * s.broadcasts + s.spurious
  {
    hide Run;
    RoundsBounded(s0, choices);
  }
}
