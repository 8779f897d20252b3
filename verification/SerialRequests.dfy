/** Which requests are answered, and how soon, over all runs, with expired reads: the fate of a
    command is decided by where the worker is when the client stores it. */
module SerialRequests {
  import opened Island
  import opened Serial
  import opened Util

  datatype Request = Writes | Reads

  function CommandOf(x: Request): Command { if x.Writes? then Wr else Rd }

  /** The client is about to store the command. */
  predicate Storing(c: Client, x: Request) { if x.Writes? then c.pc.WriteCmd? else c.pc.ReadSend? }

  /** The client has stored the command and its wait has not ended. */
  predicate Asking(c: Client, x: Request) {
    if x.Writes? then c.pc.WritePost? || c.pc.WriteWait? else Reading(c)
  }

  predicate Waits(c: Client, x: Request) { if x.Writes? then c.pc.WriteWait? else c.pc.ReadWait? }

  function Tokens(sh: Shared, x: Request): nat { if x.Writes? then sh.txReady else sh.rxReady }

  /** The worker has read a WR command and not yet posted `tx_ready` for it. */
  predicate HoldsWrite(w: Worker) {
    || ((w.pc.ClearCmd? || w.pc.Board?) && w.held == Wr)
    || ((w.pc.LastCheck? || w.pc.LoopEnd? || w.pc.Switch? || w.pc.Exited?) && w.land == Tx)
    || w.pc.TxBoard? || w.pc.TxPost?
  }

  predicate Holds(w: Worker, x: Request) { if x.Writes? then HoldsWrite(w) else HoldsRead(w) }

  /** A token for the request is there or on its way. */
  predicate Coming(s: State, x: Request) {
    Tokens(s.sh, x) > 0 || Holds(s.w, x) || InSlot(s, CommandOf(x))
  }

  // ----- Invariants of every run -----

  /** The signs of a write that will still be answered. */
  function Signs(s: State): nat {
    s.sh.txReady + One(HoldsWrite(s.w)) + One(InSlot(s, Wr))
  }

  /** A WR command in the slot that the worker is about to wipe out unread. */
  predicate Doomed(s: State) { s.sh.cmd == Wr && s.w.pc == ClearCmd && s.w.held != Wr }

  /** One write has at most one sign; a write stored over an RD command leaves none of it in the
      slot, and once it is answered the worker has nothing in hand. */
  predicate SignInvariant(s: State) {
    && Signs(s) + One(Doomed(s)) <= One(Asking(s.c, Writes))
    && (Asking(s.c, Writes) ==> s.sh.cmd != Rd)
    && (s.sh.txReady > 0 ==> !HoldsRead(s.w) && s.sh.cmd == NoCmd)
  }

  /** A command in the slot has its token, or the worker is about to take it or has just done so. */
  predicate CommandInvariant(s: State) {
    s.sh.cmd != NoCmd ==>
      || s.sh.active > 0 || s.sh.stop
      || s.w.pc.FirstCheck? || s.w.pc.ReadCmd? || s.w.pc.ClearCmd?
      || s.c.pc.WritePost? || s.c.pc.ReadPost?
  }

  predicate RequestInvariant(s: State) { Invariant(s) && SignInvariant(s) && CommandInvariant(s) }

  lemma WorkSigns(s: State)
    requires LandInvariant(s.w) && SignInvariant(s) && WorkerEnabled(s)
    ensures SignInvariant(WorkerStep(s))
  {
  }

  lemma WorkCommand(s: State)
    requires CommandInvariant(s) && WorkerEnabled(s)
    ensures CommandInvariant(WorkerStep(s))
  {
  }

  lemma GoSigns(s: State)
    requires SignInvariant(s)
    ensures SignInvariant(ClientStep(s))
  {
  }

  lemma GoCommand(s: State)
    requires CommandInvariant(s)
    ensures CommandInvariant(ClientStep(s))
  {
  }

  lemma StepKeepsRequests(s: State, a: Choice)
    requires RequestInvariant(s)
    ensures RequestInvariant(Step(s, a))
  {
    hide WorkerStep, ClientStep, Invariant, LandInvariant;
    StepKeeps(s, a);
    if a.Work? {
      if WorkerEnabled(s) {
        LandOnly(s);
        WorkSigns(s);
        WorkCommand(s);
      }
    } else if a.Go? {
      GoSigns(s);
      GoCommand(s);
    }
  }

  lemma LandOnly(s: State)
    requires Invariant(s)
    ensures LandInvariant(s.w) && BufferInvariant(s)
  {
  }

  lemma {:induction false} RunKeepsRequests(s: State, choices: seq<Choice>)
    requires Initial(s)
    ensures RequestInvariant(Run(s, choices))
  {
    hide Step, RequestInvariant;
    if choices == [] {
      InitiallyNoRequest(s);
    } else {
      RunKeepsRequests(s, choices[..|choices| - 1]);
      StepKeepsRequests(Run(s, choices[..|choices| - 1]), choices[|choices| - 1]);
    }
  }

  lemma InitiallyNoRequest(s: State)
    requires Initial(s)
    ensures RequestInvariant(s)
  {
  }

  // ----- What is coming -----

  lemma WorkComing(s: State, x: Request)
    requires LandInvariant(s.w) && WorkerEnabled(s)
    ensures var t := WorkerStep(s);
      && t.c == s.c && t.sh.stop == s.sh.stop && t.sh.txLen == s.sh.txLen
      && Coming(t, x) == Coming(s, x) && Tokens(t.sh, x) >= Tokens(s.sh, x)
  {
    if x.Writes? {
      WorkWrites(s);
    } else {
      WorkReads(s);
    }
  }

  lemma WorkWrites(s: State)
    requires LandInvariant(s.w) && WorkerEnabled(s)
    ensures var t := WorkerStep(s);
      && Coming(t, Writes) == Coming(s, Writes) && t.sh.txReady >= s.sh.txReady
  {
  }

  lemma WorkReads(s: State)
    requires LandInvariant(s.w) && WorkerEnabled(s)
    ensures var t := WorkerStep(s);
      && Coming(t, Reads) == Coming(s, Reads) && t.sh.rxReady >= s.sh.rxReady
  {
  }

  /** While the client asks, what is coming keeps coming, and nothing else comes. */
  lemma StepComing(s: State, a: Choice, x: Request)
    requires LandInvariant(s.w) && Asking(s.c, x) && Asking(Step(s, a).c, x)
    ensures Coming(Step(s, a), x) == Coming(s, x)
  {
    hide LandInvariant, WorkerStep;
    if a.Work? && WorkerEnabled(s) {
      WorkComing(s, x);
    }
  }

  /** Whether a command being stored now will be answered. */
  predicate WillCome(s: State, x: Request) {
    !s.w.pc.ClearCmd? || Tokens(s.sh, x) > 0 || Holds(s.w, x)
  }

  lemma StoreComing(s: State, x: Request)
    requires Storing(s.c, x)
    ensures var t := Step(s, Go); Asking(t.c, x) && Coming(t, x) == WillCome(s, x)
  {
  }

  /** The client's call lasts throughout `after`. */
  ghost predicate Lasts(s: State, x: Request, after: seq<Choice>) {
    forall n :: 0 <= n <= |after| ==> Asking(Run(s, after[..n]).c, x)
  }

  lemma LastsPrefix(s: State, x: Request, after: seq<Choice>, k: nat)
    requires Lasts(s, x, after) && k <= |after|
    ensures Lasts(s, x, after[..k])
  {
    hide Run;
    forall n | 0 <= n <= k
      ensures Asking(Run(s, after[..k][..n]).c, x)
    {
      assert after[..k][..n] == after[..n];
    }
  }

  lemma {:induction false} ComingLasts(s: State, x: Request, after: seq<Choice>)
    requires RequestInvariant(s) && Lasts(s, x, after)
    ensures RequestInvariant(Run(s, after)) && Coming(Run(s, after), x) == Coming(s, x)
  {
    hide Step, RequestInvariant, Coming;
    if after != [] {
      var n := |after| - 1;
      LastsPrefix(s, x, after, n);
      ComingLasts(s, x, after[..n]);
      assert after[..|after|] == after;
      var t := Run(s, after[..n]);
      LandOfRequest(t);
      StepComing(t, after[n], x);
      StepKeepsRequests(t, after[n]);
    }
  }

  lemma LandOfRequest(s: State)
    requires RequestInvariant(s)
    ensures LandInvariant(s.w)
  {
  }

  // ----- How soon it comes -----

  /** The worker's own steps until it has posted the token that is coming. */
  function AnswerLeft(w: Worker, x: Request, n: nat): int {
    var tail := if x.Writes? then 7 else 10 + n;
    if Holds(w, x) then ToWait(w, n) - 2
    else if w.pc == ReadCmd then tail + 1
    else if w.pc == FirstCheck then tail + 2
    else tail + 3 + ToWait(w, n)
  }

  predicate Pending(s: State, x: Request) {
    RequestInvariant(s) && Waits(s.c, x) && Coming(s, x) && Tokens(s.sh, x) == 0
  }

  lemma PendingEnabled(s: State, x: Request)
    requires Pending(s, x)
    ensures WorkerEnabled(s) && !s.w.quit && !s.sh.stop
  {
  }

  lemma AnswerLeftBound(s: State, x: Request)
    requires Pending(s, x)
    ensures 1 <= AnswerLeft(s.w, x, NextCopy(s)) <= LongestCopy(s) + 21
  {
    PendingEnabled(s, x);
  }

  lemma WorkAnswers(s: State, x: Request)
    requires Pending(s, x) && WorkerEnabled(s)
    ensures var t := WorkerStep(s);
      Tokens(t.sh, x) > 0 || AnswerLeft(t.w, x, NextCopy(s)) < AnswerLeft(s.w, x, NextCopy(s))
  {
    PendingEnabled(s, x);
    if x.Writes? {
      WorkAnswersWrite(s, NextCopy(s));
    } else {
      WorkAnswersRead(s, NextCopy(s));
    }
  }

  lemma WorkAnswersWrite(s: State, n: nat)
    requires LandInvariant(s.w) && BufferInvariant(s) && WorkerEnabled(s) && !s.w.quit && !s.sh.stop
    requires (HoldsWrite(s.w) || InSlot(s, Wr)) && n == NextCopy(s)
    ensures var t := WorkerStep(s);
      t.sh.txReady > 0 || AnswerLeft(t.w, Writes, n) < AnswerLeft(s.w, Writes, n)
  {
    hide BufferInvariant;
    if s.w.pc != Wait {
      hide ToWait;
      WorkToWait(s);
      WriteToWait(s.w, n);
      WriteToWait(WorkerStep(s).w, n);
    }
  }

  lemma WriteToWait(w: Worker, n: nat)
    ensures w.pc == ClearCmd && w.held == Wr ==> ToWait(w, n) == 9
    ensures w.pc == ReadCmd || w.pc == FirstCheck ==> ToWait(w, n) >= 13
  {
  }

  lemma WorkAnswersRead(s: State, n: nat)
    requires LandInvariant(s.w) && BufferInvariant(s) && WorkerEnabled(s) && !s.w.quit && !s.sh.stop
    requires (HoldsRead(s.w) || InSlot(s, Rd)) && n == NextCopy(s)
    ensures var t := WorkerStep(s);
      t.sh.rxReady > 0 || AnswerLeft(t.w, Reads, n) < AnswerLeft(s.w, Reads, n)
  {
    hide BufferInvariant;
    if s.w.pc != Wait {
      hide ToWait;
      WorkToWait(s);
      ReadToWait(s.w, n);
      ReadToWait(WorkerStep(s).w, n);
    }
  }

  lemma ReadToWait(w: Worker, n: nat)
    ensures w.pc == ClearCmd && w.held == Rd ==> ToWait(w, n) == 12 + n
    ensures w.pc == ReadCmd || w.pc == FirstCheck ==> ToWait(w, n) >= 13 + n
  {
  }

  /** Somewhere along `after` the token is there, and the client still waits for it. */
  ghost predicate GetsAnswer(s: State, x: Request, after: seq<Choice>) {
    exists n :: 0 <= n <= |after| && Tokens(Run(s, after[..n]).sh, x) > 0 && Run(s, after[..n]).c == s.c
  }

  lemma GetsAnswerExtends(s: State, x: Request, after: seq<Choice>, k: nat)
    requires k <= |after| && GetsAnswer(s, x, after[..k])
    ensures GetsAnswer(s, x, after)
  {
    hide Run;
    var n :| 0 <= n <= k && Tokens(Run(s, after[..k][..n]).sh, x) > 0 && Run(s, after[..k][..n]).c == s.c;
    assert after[..k][..n] == after[..n];
  }

  lemma AnswerNow(s: State, x: Request, after: seq<Choice>)
    requires Tokens(Run(s, after).sh, x) > 0 && Run(s, after).c == s.c
    ensures GetsAnswer(s, x, after)
  {
    hide Run;
    assert after[..|after|] == after;
  }

  /** The read has given up waiting. */
  predicate GivesUp(s: State, x: Request, after: seq<Choice>) {
    x.Reads? && Run(s, after).log.expired > s.log.expired
  }

  lemma ExpiredStays(s: State, a: Choice)
    ensures s.log.expired <= Step(s, a).log.expired
  {
  }

  /** Nothing but the worker or the clock changes anything while a token is pending. */
  lemma StepPending(s: State, a: Choice, x: Request)
    requires Pending(s, x)
    ensures var t := Step(s, a);
      || (x.Reads? && t.log.expired > s.log.expired)
      || (t.c == s.c && NextCopy(t) == NextCopy(s) && (Tokens(t.sh, x) > 0 || (
            Pending(t, x) && AnswerLeft(t.w, x, NextCopy(s)) + One(a.Work?) <= AnswerLeft(s.w, x, NextCopy(s)))))
  {
    hide WorkerStep, Invariant, SignInvariant, CommandInvariant, AnswerLeft, Coming, WorkerEnabled;
    PendingEnabled(s, x);
    StepKeepsRequests(s, a);
    if a.Work? {
      LandOfRequest(s);
      WorkComing(s, x);
      WorkAnswers(s, x);
    }
  }

  lemma {:induction false} PendingRun(s: State, x: Request, after: seq<Choice>)
    requires Pending(s, x)
    ensures GetsAnswer(s, x, after) || GivesUp(s, x, after) || (
      var t := Run(s, after);
      && Pending(t, x) && t.c == s.c && NextCopy(t) == NextCopy(s) && t.log.expired >= s.log.expired
      && AnswerLeft(t.w, x, NextCopy(s)) + CountWork(after) <= AnswerLeft(s.w, x, NextCopy(s)))
  {
    hide Step, Pending, AnswerLeft, GetsAnswer, NextCopy;
    if after != [] {
      var n := |after| - 1;
      PendingRun(s, x, after[..n]);
      ExpiredStays(Run(s, after[..n]), after[n]);
      if GetsAnswer(s, x, after[..n]) {
        GetsAnswerExtends(s, x, after, n);
      } else if !GivesUp(s, x, after[..n]) {
        StepPending(Run(s, after[..n]), after[n], x);
        if Tokens(Run(s, after).sh, x) > 0 && Run(s, after).c == s.c {
          AnswerNow(s, x, after);
        }
      }
    }
  }

  /** A token that is coming is there within `LongestCopy` + 21 of the worker's steps. */
  lemma AnswerInTime(s: State, x: Request, after: seq<Choice>)
    requires RequestInvariant(s) && Waits(s.c, x) && Coming(s, x)
    requires CountWork(after) >= LongestCopy(s) + 21
    ensures GetsAnswer(s, x, after) || GivesUp(s, x, after)
  {
    hide Run, AnswerLeft, CountWork, RequestInvariant, Coming, GetsAnswer, GivesUp, LongestCopy, NextCopy;
    if Tokens(s.sh, x) > 0 {
      NoStep(s);
      assert after[..0] == [];
      AnswerNow(s, x, after[..0]);
      GetsAnswerExtends(s, x, after, 0);
    } else {
      PendingRun(s, x, after);
      AnswerLeftBound(s, x);
      if !GetsAnswer(s, x, after) && !GivesUp(s, x, after) {
        AnswerLeftBound(Run(s, after), x);
      }
    }
  }

  // ----- The exact fate of a request -----

  /** From every reachable state in which the client is about to store a command, with expired reads
      before or without.  If the worker is about to clear the slot, holds no such command and has
      posted no token for one, none comes while the call lasts.  Otherwise client and worker are never
      both blocked while the call lasts, and once the client waits its token is there within
      `LongestCopy` + 21 of the worker's steps, unless the wait of a read expires before that. */
  lemma RequestFate(s0: State, before: seq<Choice>, x: Request, after: seq<Choice>)
    requires Initial(s0) && Storing(Run(s0, before).c, x)
    requires Lasts(Step(Run(s0, before), Go), x, after)
    ensures var s := Run(s0, before);
      var t := Run(Step(s, Go), after);
      && (!WillCome(s, x) ==> Tokens(t.sh, x) == 0)
      && (WillCome(s, x) && Waits(t.c, x) ==>
            && (Tokens(t.sh, x) > 0 || WorkerEnabled(t))
            && forall more :: CountWork(more) >= LongestCopy(t) + 21 ==>
                 GetsAnswer(t, x, more) || GivesUp(t, x, more))
  {
    hide Run, RequestInvariant, Step, Coming, GetsAnswer, GivesUp, WillCome, Lasts, LongestCopy, WorkerEnabled;
    var s := Run(s0, before);
    var stored := Step(s, Go);
    RunKeepsRequests(s0, before);
    StepKeepsRequests(s, Go);
    StoreComing(s, x);
    ComingLasts(stored, x, after);
    var t := Run(stored, after);
    TokenComes(t, x);
    if Coming(t, x) && Waits(t.c, x) {
      if Tokens(t.sh, x) == 0 {
        PendingEnabled(t, x);
      }
      forall more | CountWork(more) >= LongestCopy(t) + 21
        ensures GetsAnswer(t, x, more) || GivesUp(t, x, more)
      {
        AnswerInTime(t, x, more);
      }
    }
  }

  lemma TokenComes(s: State, x: Request)
    ensures Tokens(s.sh, x) > 0 ==> Coming(s, x)
  {
  }

  // ----- Letting the worker run -----

  lemma WorksFront(n: nat)
    ensures [Work] + Works(n) == Works(n + 1)
  {
    if n > 0 {
      WorksFront(n - 1);
      assert [Work] + Works(n) == ([Work] + Works(n - 1)) + [Work];
    }
  }

  lemma WorksStep(s: State, n: nat)
    ensures Run(s, Works(n + 1)) == Step(Run(s, Works(n)), Work)
  {
    hide Step;
    assert Works(n + 1)[..n] == Works(n);
  }

  lemma WorkOnly(s: State)
    ensures var t := Step(s, Work);
      && t.c == s.c && t.sh.stop == s.sh.stop && t.sh.txLen == s.sh.txLen && t.sh.txBuf == s.sh.txBuf
      && t.log == s.log.(taken := t.log.taken, served := t.log.served, stray := t.log.stray)
  {
  }

  /** What is coming to a client that asks keeps coming while only the worker runs. */
  lemma {:induction false} WorksRun(s: State, n: nat)
    requires RequestInvariant(s)
    ensures var t := Run(s, Works(n));
      && RequestInvariant(t)
      && t.c == s.c && t.sh.stop == s.sh.stop && t.sh.txLen == s.sh.txLen && t.sh.txBuf == s.sh.txBuf
      && t.log == s.log.(taken := t.log.taken, served := t.log.served, stray := t.log.stray)
      && forall x :: Asking(s.c, x) ==> Coming(t, x) == Coming(s, x)
  {
    hide Step, RequestInvariant, Coming, Asking;
    if n == 0 {
      NoStep(s);
    } else {
      WorksRun(s, n - 1);
      WorksStep(s, n - 1);
      var t := Run(s, Works(n - 1));
      WorkOnly(t);
      StepKeepsRequests(t, Work);
      LandOfRequest(t);
      forall x | Asking(s.c, x)
        ensures Coming(Step(t, Work), x) == Coming(s, x)
      {
        StepComing(t, Work, x);
      }
    }
  }

  predicate Resting(s: State) { s.w.pc == Wait && s.sh.active == 0 }

  /** Left to itself the worker takes every token there is and comes to rest at its wait. */
  lemma {:induction false} Drain(s: State) returns (n: nat)
    requires RequestInvariant(s) && !s.sh.stop
    ensures Resting(Run(s, Works(n)))
    decreases s.sh.active, ToWait(s.w, NextCopy(s))
  {
    hide RequestInvariant, Resting, Run, Works, Step, ToWait, NextCopy;
    if Resting(s) {
      n := 0;
      NoStep(s);
      NoWorks();
    } else {
      RestlessWork(s);
      StepKeepsRequests(s, Work);
      var m := Drain(Step(s, Work));
      n := m + 1;
      WorksFront(m);
      RunOne(s, Work);
      RunAppend(s, [Work], Works(m));
    }
  }

  lemma NoWorks()
    ensures Works(0) == []
  {
  }

  lemma RestlessWork(s: State)
    requires RequestInvariant(s) && !s.sh.stop && !Resting(s)
    ensures var t := Step(s, Work);
      && !t.sh.stop && t.sh.active <= s.sh.active
      && (t.sh.active == s.sh.active ==> ToWait(t.w, NextCopy(t)) < ToWait(s.w, NextCopy(s)))
  {
    hide SignInvariant, CommandInvariant, ToWait, TokenInvariant;
    if s.w.pc != Wait {
      WorkToWait(s);
    }
  }

  /** At rest a token that was coming is there. */
  lemma AtRest(s: State)
    requires RequestInvariant(s) && Resting(s) && !s.sh.stop && !s.c.pc.WritePost? && !s.c.pc.ReadPost?
    ensures s.sh.cmd == NoCmd && !HoldsRead(s.w) && !HoldsWrite(s.w)
    ensures forall x :: Coming(s, x) ==> Tokens(s.sh, x) > 0
  {
  }

  // ----- Exactly when a call can return -----

  lemma PostStep(s: State, x: Request)
    requires Storing(s.c, x)
    ensures var t := Step(Step(s, Go), Go); Waits(t.c, x) && t.sh.stop == s.sh.stop
  {
  }

  lemma StoringNotStopped(s: State, x: Request)
    requires RequestInvariant(s) && Storing(s.c, x)
    ensures !s.sh.stop
  {
  }

  /** From the store of a command a token for it can still come within the call exactly if `WillCome`
      holds at that moment. */
  lemma RequestAnswerable(s0: State, before: seq<Choice>, x: Request)
    requires Initial(s0) && Storing(Run(s0, before).c, x)
    ensures var s := Run(s0, before);
      (exists after :: Lasts(Step(s, Go), x, after) && Tokens(Run(Step(s, Go), after).sh, x) > 0) <==> WillCome(s, x)
  {
    hide Run, Step, WillCome, Lasts;
    var s := Run(s0, before);
    var stored := Step(s, Go);
    if WillCome(s, x) {
      var after := WayToAnswer(s0, before, x);
    } else {
      forall after | Lasts(stored, x, after)
        ensures Tokens(Run(stored, after).sh, x) == 0
      {
        RequestFate(s0, before, x, after);
      }
    }
  }

  lemma WayToAnswer(s0: State, before: seq<Choice>, x: Request) returns (after: seq<Choice>)
    requires Initial(s0) && Storing(Run(s0, before).c, x) && WillCome(Run(s0, before), x)
    ensures var stored := Step(Run(s0, before), Go);
      Lasts(stored, x, after) && Tokens(Run(stored, after).sh, x) > 0 && Waits(Run(stored, after).c, x)
  {
    hide Run, Works, Coming, RequestInvariant, Step, WillCome, Resting, Lasts;
    var s := Run(s0, before);
    var stored := Step(s, Go);
    var t := Step(stored, Go);
    RunKeepsRequests(s0, before);
    StoringNotStopped(s, x);
    StepKeepsRequests(s, Go);
    StepKeepsRequests(stored, Go);
    StoreComing(s, x);
    PostStep(s, x);
    LandOfRequest(stored);
    StepComing(stored, Go, x);
    var n := Drain(t);
    WorksRun(t, n);
    AtRest(Run(t, Works(n)));
    RunOne(stored, Go);
    after := [Go] + Works(n);
    RunAppend(stored, [Go], Works(n));
    WorksLast(s, x, n);
  }

  /** The call lasts while the client posts and then only the worker runs. */
  lemma WorksLast(s: State, x: Request, n: nat)
    requires Storing(s.c, x)
    ensures Lasts(Step(s, Go), x, [Go] + Works(n))
  {
    hide Step, Run;
    var stored := Step(s, Go);
    PostStep(s, x);
    StoreComing(s, x);
    forall k | 0 <= k <= n + 1
      ensures Asking(Run(stored, ([Go] + Works(n))[..k]).c, x)
    {
      if k == 0 {
        assert ([Go] + Works(n))[..0] == [];
        NoStep(stored);
      } else {
        WorksPrefix(n, k - 1);
        assert ([Go] + Works(n))[..k] == [Go] + Works(k - 1);
        RunOne(stored, Go);
        RunAppend(stored, [Go], Works(k - 1));
        WorksClient(Step(stored, Go), k - 1);
      }
    }
  }

  lemma {:induction false} WorksClient(s: State, n: nat)
    ensures Run(s, Works(n)).c == s.c
  {
    hide Step;
    if n == 0 {
      NoStep(s);
    } else {
      WorksClient(s, n - 1);
      WorksStep(s, n - 1);
      WorkOnly(Run(s, Works(n - 1)));
    }
  }

  lemma {:induction false} WorksPrefix(n: nat, k: nat)
    requires k <= n
    ensures Works(n)[..k] == Works(k)
  {
    if k < n {
      WorksPrefix(n - 1, k);
      assert Works(n)[..k] == Works(n - 1)[..k];
    }
  }

  // ----- Writes -----

  /** For a write only the place of the worker matters. */
  lemma WriteWillCome(s: State)
    requires RequestInvariant(s) && s.c.pc.WriteCmd?
    ensures WillCome(s, Writes) <==> !s.w.pc.ClearCmd?
  {
  }

  predicate Lost(s: State) { Asking(s.c, Writes) && !Coming(s, Writes) }

  lemma StepLost(s: State, a: Choice)
    requires LandInvariant(s.w) && Lost(s)
    ensures Lost(Step(s, a))
  {
    hide LandInvariant, WorkerStep;
    if a.Work? && WorkerEnabled(s) {
      WorkComing(s, Writes);
    }
  }

  lemma {:induction false} LostForever(s: State, after: seq<Choice>)
    requires RequestInvariant(s) && Lost(s)
    ensures RequestInvariant(Run(s, after)) && Lost(Run(s, after))
  {
    hide Step, Lost, RequestInvariant;
    if after != [] {
      var n := |after| - 1;
      LostForever(s, after[..n]);
      LandOfRequest(Run(s, after[..n]));
      StepLost(Run(s, after[..n]), after[n]);
      StepKeepsRequests(Run(s, after[..n]), after[n]);
    }
  }

  /** A write can return exactly if the worker is not about to clear the slot when its command is
      stored; if it is, the call lasts for ever, whatever happens next. */
  lemma WriteReturns(s0: State, before: seq<Choice>)
    requires Initial(s0) && Run(s0, before).c.pc.WriteCmd?
    ensures var s := Run(s0, before);
      (exists after :: !Asking(Run(Step(s, Go), after).c, Writes)) <==> !s.w.pc.ClearCmd?
  {
    hide Run, Step, WillCome, Coming, RequestInvariant, Lasts;
    var s := Run(s0, before);
    var stored := Step(s, Go);
    RunKeepsRequests(s0, before);
    WriteWillCome(s);
    StoreComing(s, Writes);
    StepKeepsRequests(s, Go);
    if s.w.pc.ClearCmd? {
      forall after
        ensures Asking(Run(stored, after).c, Writes)
      {
        LostForever(stored, after);
      }
    } else {
      var after := WayToAnswer(s0, before, Writes);
      RunOne(Run(stored, after), Go);
      RunAppend(stored, after, [Go]);
      TakeAnswer(Run(stored, after));
      assert !Asking(Run(stored, after + [Go]).c, Writes);
    }
  }

  lemma TakeAnswer(s: State)
    requires s.c.pc.WriteWait? && s.sh.txReady > 0
    ensures Step(s, Go).c.pc.Ready?
  {
  }
}
