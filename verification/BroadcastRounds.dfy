/** What a broadcast brings about: everybody it wakes can complete a round, and the bound on the rounds
    is attained. */
module BroadcastRounds {
  import opened Broadcast

  lemma NoStep(s: State)
    ensures Run(s, []) == s
  {
  }

  lemma {:induction false} RunAppend(s: State, a: seq<Choice>, b: seq<Choice>)
    ensures Run(s, a + b) == Run(Run(s, a), b)
  {
    hide Step;
    if b == [] {
      assert a + b == a;
    } else {
      var n := |b| - 1;
      assert (a + b)[..|a| + n] == a + b[..n];
      RunAppend(s, a, b[..n]);
    }
  }

  lemma OneStep(s: State, a: Choice)
    ensures Run(s, [a]) == Step(s, a)
  {
    assert [a][..0] == [];
  }

  lemma RunTwo(s: State, a: Choice, b: Choice)
    ensures Run(s, [a, b]) == Step(Step(s, a), b)
  {
    hide Step;
    OneStep(s, a);
    assert [a, b][..1] == [a];
  }

  lemma RunFour(s: State, a: Choice, b: Choice, c: Choice, d: Choice)
    ensures Run(s, [a, b, c, d]) == Step(Step(Step(Step(s, a), b), c), d)
  {
    hide Step;
    RunTwo(s, a, b);
    RunTwo(Run(s, [a, b]), c, d);
    RunAppend(s, [a, b], [c, d]);
    assert [a, b] + [c, d] == [a, b, c, d];
  }

  lemma WokenClears(s: State, i: nat)
    requires i < |s.workers| && s.workers[i].Woken? && s.mutex == Nobody
    ensures Step(Step(s, Turn(i)), Turn(i)) ==
      s.(flag := false, mutex := Worker(i), workers := s.workers[i := Unlock])
  {
    assert s.workers[i := Clear][i := Unlock] == s.workers[i := Unlock];
  }

  lemma UnlockWorks(s: State, i: nat)
    requires i < |s.workers| && s.workers[i].Unlock?
    ensures Step(Step(s, Turn(i)), Turn(i)) ==
      s.(mutex := Nobody, rounds := s.rounds + 1, workers := s.workers[i := Lock])
  {
    assert s.workers[i := Working][i := Lock] == s.workers[i := Lock];
  }

  /** An awakened worker that gets four turns while the mutex is free completes a round: it clears the
      flag and leaves everything else as it was. */
  lemma WokenCompletes(s: State, i: nat)
    requires i < |s.workers| && s.workers[i].Woken? && s.mutex == Nobody
    ensures var t := Turn(i);
      Run(s, [t, t, t, t]) == s.(flag := false, rounds := s.rounds + 1, workers := s.workers[i := Lock])
  {
    hide Step;
    var t := Turn(i);
    RunFour(s, t, t, t, t);
    WokenClears(s, i);
    UnlockWorks(Step(Step(s, t), t), i);
    assert s.workers[i := Unlock][i := Lock] == s.workers[i := Lock];
  }

  /** A worker at the top of its loop that gets two turns while the mutex is free and the flag clear
      falls asleep. */
  lemma FallsAsleep(s: State, i: nat)
    requires i < |s.workers| && s.workers[i].Lock? && s.mutex == Nobody && !s.flag
    ensures Run(s, [Turn(i), Turn(i)]) == s.(workers := s.workers[i := Sleep])
  {
    RunTwo(s, Turn(i), Turn(i));
    assert s.workers[i := Test][i := Sleep] == s.workers[i := Sleep];
  }

  // ----- After a broadcast -----

  /** The workers before `n`, where those that were awakened have completed their round. */
  function Served(workers: seq<Pc>, n: nat): (r: seq<Pc>)
    ensures |r| == |workers|
  {
    seq(|workers|, i requires 0 <= i < |workers| => if i < n && workers[i] == Woken then Lock else workers[i])
  }

  function CountWoken(workers: seq<Pc>): nat {
    if workers == [] then 0
    else CountWoken(workers[..|workers| - 1]) + (if workers[|workers| - 1].Woken? then 1 else 0)
  }

  /** Four turns for each of the first `n` workers that is awake. */
  function Turns(workers: seq<Pc>, n: nat): seq<Choice>
    requires n <= |workers|
  {
    if n == 0 then []
    else
      var t := Turn(n - 1);
      Turns(workers, n - 1) + (if workers[n - 1].Woken? then [t, t, t, t] else [])
  }

  lemma {:induction false} AllComplete(s: State, n: nat)
    requires n <= |s.workers| && s.mutex == Nobody
    ensures var t := Run(s, Turns(s.workers, n));
      && t.mutex == Nobody && t.workers == Served(s.workers, n) && t.main == s.main
      && t.rounds == s.rounds + CountWoken(s.workers[..n])
      && t.broadcasts == s.broadcasts && t.spurious == s.spurious
      && t.flag == (s.flag && CountWoken(s.workers[..n]) == 0)
  {
    hide Run;
    if n == 0 {
      NoStep(s);
    } else {
      var i := n - 1;
      AllComplete(s, i);
      var u := Run(s, Turns(s.workers, i));
      assert s.workers[..n][..i] == s.workers[..i];
      if s.workers[i].Woken? {
        WokenCompletes(u, i);
        RunAppend(s, Turns(s.workers, i), [Turn(i), Turn(i), Turn(i), Turn(i)]);
      } else {
        assert Turns(s.workers, n) == Turns(s.workers, i);
      }
      assert Served(s.workers, n) == if s.workers[i].Woken? then u.workers[i := Lock] else u.workers;
    }
  }

  lemma {:induction false} CountAfterBroadcast(workers: seq<Pc>)
    ensures CountWoken(WakeAll(workers)) == CountWoken(workers) + CountSleeping(workers)
  {
    if workers != [] {
      var n := |workers| - 1;
      CountAfterBroadcast(workers[..n]);
      assert WakeAll(workers)[..n] == WakeAll(workers[..n]);
    }
  }

  /** From every state in which the broadcaster is about to broadcast, everybody who sleeps, and
      everybody who has been awakened before, can complete a round without another broadcast. */
  lemma EverybodyCompletes(s: State) returns (after: seq<Choice>)
    requires s.main.MainBroadcast?
    ensures var t := Run(s, after);
      && t.rounds == s.rounds + CountSleeping(s.workers) + CountWoken(s.workers)
      && t.broadcasts == s.broadcasts + 1 && t.spurious == s.spurious && |t.workers| == |s.workers|
      && forall i :: 0 <= i < |s.workers| ==>
           t.workers[i] == if s.workers[i].Sleep? || s.workers[i].Woken? then Lock else s.workers[i]
  {
    hide Run;
    var u := Step(Step(s, MainTurn), MainTurn);
    RunTwo(s, MainTurn, MainTurn);
    AllComplete(u, |u.workers|);
    CountAfterBroadcast(s.workers);
    assert u.workers[..|u.workers|] == u.workers;
    after := [MainTurn, MainTurn] + Turns(u.workers, |u.workers|);
    RunAppend(s, [MainTurn, MainTurn], Turns(u.workers, |u.workers|));
  }

  // ----- The bound is attained -----

  function All(n: nat, pc: Pc): (r: seq<Pc>)
    ensures |r| == n
  {
    seq(n, _ => pc)
  }

  /** Two turns for each of the first `n` workers. */
  function Naps(n: nat): seq<Choice> {
    if n == 0 then [] else Naps(n - 1) + [Turn(n - 1), Turn(n - 1)]
  }

  lemma {:induction false} AllFallAsleep(s: State, n: nat)
    requires n <= |s.workers| && s.mutex == Nobody && !s.flag && s.workers == All(|s.workers|, Lock)
    ensures Run(s, Naps(n)) == s.(workers := All(n, Sleep) + All(|s.workers| - n, Lock))
  {
    hide Run;
    if n == 0 {
      NoStep(s);
      assert All(0, Sleep) + s.workers == s.workers;
    } else {
      AllFallAsleep(s, n - 1);
      var u := Run(s, Naps(n - 1));
      FallsAsleep(u, n - 1);
      RunAppend(s, Naps(n - 1), [Turn(n - 1), Turn(n - 1)]);
      assert u.workers[n - 1 := Sleep] == All(n, Sleep) + All(|s.workers| - n, Lock);
    }
  }

  /** Everybody sleeps, and the broadcaster is at the top of its loop. */
  predicate Asleep(s: State) {
    s.mutex == Nobody && !s.flag && s.main == MainLock && s.workers == All(|s.workers|, Sleep)
  }

  lemma {:induction false} CountAll(n: nat, pc: Pc)
    ensures CountWoken(All(n, pc)) == if pc.Woken? then n else 0
  {
    if n > 0 {
      CountAll(n - 1, pc);
      assert All(n, pc)[..n - 1] == All(n - 1, pc);
    }
  }

  lemma Broadcasts(s: State)
    requires Asleep(s)
    ensures Run(s, [MainTurn, MainTurn, MainTurn, MainTurn]) ==
      s.(flag := true, broadcasts := s.broadcasts + 1, workers := All(|s.workers|, Woken))
  {
    RunFour(s, MainTurn, MainTurn, MainTurn, MainTurn);
    assert WakeAll(s.workers) == All(|s.workers|, Woken);
  }

  /** One broadcast, after which everybody completes a round and sleeps again. */
  lemma OneBroadcast(s: State) returns (choices: seq<Choice>)
    requires Asleep(s) && |s.workers| > 0
    ensures var t := Run(s, choices);
      && Asleep(t) && |t.workers| == |s.workers| && t.rounds == s.rounds + |s.workers|
      && t.broadcasts == s.broadcasts + 1 && t.spurious == s.spurious
  {
    hide Run;
    var n := |s.workers|;
    var main := [MainTurn, MainTurn, MainTurn, MainTurn];
    Broadcasts(s);
    var u := Run(s, main);
    AllComplete(u, n);
    CountAll(n, Woken);
    assert u.workers[..n] == All(n, Woken);
    var turns := Turns(u.workers, n);
    var v := Run(u, turns);
    assert v.workers == All(n, Lock);
    AllFallAsleep(v, n);
    assert All(n, Sleep) + All(0, Lock) == All(n, Sleep);
    choices := main + turns + Naps(n);
    RunAppend(s, main, turns);
    RunAppend(s, main + turns, Naps(n));
  }

  lemma {:induction false} ManyBroadcasts(s: State, b: nat) returns (choices: seq<Choice>)
    requires Asleep(s) && |s.workers| > 0
    ensures var t := Run(s, choices);
      && Asleep(t) && |t.workers| == |s.workers| && t.rounds == s.rounds + |s.workers| * b
      && t.broadcasts == s.broadcasts + b && t.spurious == s.spurious
  {
    hide Run, Asleep;
    if b == 0 {
      choices := [];
      NoStep(s);
    } else {
      var first := ManyBroadcasts(s, b - 1);
      var last := OneBroadcast(Run(s, first));
      choices := first + last;
      RunAppend(s, first, last);
      assert |s.workers| * b == |s.workers| * (b - 1) + |s.workers|;
    }
  }

  /** A worker that wakes up by itself completes a round and sleeps again. */
  lemma OneWakeup(s: State) returns (choices: seq<Choice>)
    requires Asleep(s) && |s.workers| > 0
    ensures Run(s, choices) == s.(rounds := s.rounds + 1, spurious := s.spurious + 1)
  {
    hide Run;
    var t := Turn(0);
    var u := Step(s, Wakeup(0));
    OneStep(s, Wakeup(0));
    WokenCompletes(u, 0);
    var v := Run(u, [t, t, t, t]);
    FallsAsleep(v, 0);
    choices := [Wakeup(0)] + [t, t, t, t] + [t, t];
    RunAppend(s, [Wakeup(0)], [t, t, t, t]);
    RunAppend(s, [Wakeup(0)] + [t, t, t, t], [t, t]);
    assert s.workers[0 := Woken][0 := Lock][0 := Sleep] == s.workers;
  }

  lemma {:induction false} ManyWakeups(s: State, k: nat) returns (choices: seq<Choice>)
    requires Asleep(s) && |s.workers| > 0
    ensures Run(s, choices) == s.(rounds := s.rounds + k, spurious := s.spurious + k)
  {
    hide Run;
    if k == 0 {
      choices := [];
      NoStep(s);
    } else {
      var first := ManyWakeups(s, k - 1);
      var last := OneWakeup(Run(s, first));
      choices := first + last;
      RunAppend(s, first, last);
    }
  }

  /** The bound on the rounds is attained: for every number of workers, of broadcasts and of spurious
      wakeups there is a run with exactly that many rounds. */
  lemma BoundAttained(s0: State, b: nat, k: nat) returns (choices: seq<Choice>)
    requires Initial(s0) && |s0.workers| > 0
    ensures var s := Run(s0, choices);
      s.broadcasts == b && s.spurious == k && s.rounds == |s0.workers| * b + k
  {
    hide Run;
    var n := |s0.workers|;
    var start := [MainTurn] + Naps(n);
    var u := Step(s0, MainTurn);
    OneStep(s0, MainTurn);
    RunAppend(s0, [MainTurn], Naps(n));
    assert u.workers == All(n, Lock);
    AllFallAsleep(u, n);
    assert All(n, Sleep) + All(0, Lock) == All(n, Sleep);
    var s1 := Run(s0, start);
    var c1 := ManyBroadcasts(s1, b);
    var c2 := ManyWakeups(Run(s1, c1), k);
    choices := start + c1 + c2;
    RunAppend(s0, start, c1);
    RunAppend(s0, start + c1, c2);
  }
}
