/** Runs in which a copy goes where it should not: a read stores past the caller's buffer, a long
    write leaves its channel, and so does a read as the first call on a fresh device. */
module SerialSpill {
  import opened Serial
  import opened SerialRequests
  import opened SerialBuffers
  import opened SerialLoopback
  import opened SerialTimely
  import opened Util

  predicate Begins(a: Choice) { a.BeginRead? || a.BeginWrite? || a.BeginDestroy? }

  /** A state of an orderly run. */
  predicate Kept(s0: State, s: State) { Sound(s, Fits(s0.sh.txLen)) && Orderly(s0, s.log) }

  lemma KeptStep(s0: State, s: State, a: Choice)
    requires Kept(s0, s) && (Begins(a) ==> Orderly(s0, Step(s, a).log))
    ensures Kept(s0, Step(s, a)) && Run(s, [a]) == Step(s, a)
  {
    hide Step, Run, Orderly, InBounds, LoopsBack, Invariant, SignInvariant, CommandInvariant, Fits;
    RunOne(s, a);
    if !Begins(a) {
      SameCalls(s0, s, a);
    }
    StepKeepsRequests(s, a);
    StepInBounds(s0, s, a);
    StepLoopsBack(s0, s, a);
  }

  lemma SameCalls(s0: State, s: State, a: Choice)
    requires Orderly(s0, s.log) && !Begins(a)
    ensures Orderly(s0, Step(s, a).log)
  {
    hide WorkerStep, ClientStep;
    if a.Work? && WorkerEnabled(s) {
      WorkTakes(s);
    } else if a.Go? {
      GoCalls(s);
    }
  }

  lemma {:induction false} KeptWorks(s0: State, s: State, n: nat)
    requires Kept(s0, s)
    ensures Kept(s0, Run(s, Works(n)))
  {
    hide Step, Kept;
    if n == 0 {
      NoStep(s);
    } else {
      KeptWorks(s0, s, n - 1);
      WorksStep(s, n - 1);
      KeptStep(s0, Run(s, Works(n - 1)), Work);
    }
  }

  lemma KeptRequests(s0: State, s: State)
    requires Kept(s0, s)
    ensures RequestInvariant(s)
  {
  }

  /** Let the worker come to rest. */
  lemma Rest(s0: State, s: State) returns (n: nat)
    requires Kept(s0, s) && !s.sh.stop
    ensures var t := Run(s, Works(n));
      && Kept(s0, t) && Resting(t) && RequestInvariant(t) && !t.sh.stop
      && t.c == s.c && t.log == s.log.(taken := t.log.taken, served := t.log.served, stray := t.log.stray)
      && NextCopy(t) == NextCopy(s)
      && forall x :: Asking(s.c, x) ==> Coming(t, x) == Coming(s, x)
  {
    hide Run, Works, RequestInvariant, Kept, Coming, Asking, Resting;
    KeptRequests(s0, s);
    n := Drain(s);
    WorksRun(s, n);
    KeptWorks(s0, s, n);
  }

  // ----- A read that gets the whole last write -----

  /** The worker has stored the count of the last write, or will. */
  predicate WillCount(s: State) {
    s.sh.rxCnt == NextCopy(s) || (HoldsRead(s.w) && !s.w.pc.RxPost?) || InSlot(s, Rd)
  }

  lemma WorkWillCount(s: State)
    requires LandInvariant(s.w) && WorkerCopies(s) && WillCount(s) && WorkerEnabled(s)
    ensures WillCount(WorkerStep(s)) && WorkerStep(s).c == s.c
  {
  }

  lemma KeptCopies(s0: State, s: State)
    requires Kept(s0, s)
    ensures LandInvariant(s.w) && (InWrite(s.c.pc) || WorkerCopies(s))
  {
    hide InBounds;
  }

  lemma {:induction false} WorksWillCount(s0: State, s: State, n: nat)
    requires Kept(s0, s) && WillCount(s) && !InWrite(s.c.pc)
    ensures WillCount(Run(s, Works(n))) && Run(s, Works(n)).c == s.c
  {
    hide WorkerStep, Kept, WillCount, WorkerEnabled;
    if n == 0 {
      NoStep(s);
    } else {
      WorksWillCount(s0, s, n - 1);
      WorksStep(s, n - 1);
      KeptWorks(s0, s, n - 1);
      var t := Run(s, Works(n - 1));
      KeptCopies(s0, t);
      if WorkerEnabled(t) {
        WorkWillCount(t);
      }
    }
  }

  /** Two steps of the client. */
  lemma GoTwice(s0: State, s: State) returns (t: State, choices: seq<Choice>)
    requires Kept(s0, s)
    ensures t == Run(s, choices) == Step(Step(s, Go), Go) && Kept(s0, t)
  {
    hide Step, Run, Kept;
    KeptStep(s0, s, Go);
    KeptStep(s0, Step(s, Go), Go);
    t, choices := Step(Step(s, Go), Go), [Go] + [Go];
    RunAppend(s, [Go], [Go]);
  }

  /** From an idle client and a resting worker to a posted read. */
  lemma PostRead(s0: State, s: State, room: nat) returns (t: State, choices: seq<Choice>)
    requires Kept(s0, s) && Resting(s) && s.c.pc.Ready? && Orderly(s0, Begun(s.log, BeginRead(room)))
    ensures t == Run(s, choices) && Kept(s0, t)
    ensures t.c.pc.ReadWait? && t.c.room == room && WillCount(t) && Coming(t, Reads) && t.sh.stop == s.sh.stop
    ensures t.log == Begun(s.log, BeginRead(room)).(issued := t.log.issued)
  {
    hide Run, Sound, Orderly, Begun;
    KeptStep(s0, s, BeginRead(room));
    var u := Step(s, BeginRead(room));
    KeptStep(s0, u, Go);
    var v, more := GoTwice(s0, Step(u, Go));
    t, choices := v, [BeginRead(room)] + [Go] + more;
    RunAppend(s, [BeginRead(room)], [Go]);
    RunAppend(s, [BeginRead(room)] + [Go], more);
  }

  lemma CountAtRest(s0: State, s: State)
    requires Kept(s0, s) && Resting(s) && !s.sh.stop && s.c.pc.ReadWait? && WillCount(s) && Coming(s, Reads)
    ensures s.sh.rxReady > 0 && s.sh.rxCnt == NextCopy(s) == |s.log.lastWrite|
  {
    hide InBounds, RequestInvariant, WorkerCopies;
    AtRest(s);
    KeptFits(s0, s);
  }

  lemma KeptFits(s0: State, s: State)
    requires Kept(s0, s) && InRead(s.c.pc)
    ensures Fits(s.sh.txLen)
  {
    hide LoopsBack;
    FitsWhenReceiving(s, Fits(s0.sh.txLen));
  }

  /** What a read into a buffer for `room` bytes leaves behind after `data` was written. */
  predicate ReadBack(log: Log, data: seq<char>, room: nat) {
    && log.lastWrite == data
    && log.lastCount == |data| && log.lastRead == data[..Lesser(|data|, room)]
    && log.lastSpill == |data| - Lesser(|data|, room)
  }

  lemma CopyingOut(s0: State, s: State)
    requires Kept(s0, s) && s.c.pc.ReadCopy?
    ensures CopiesBack(s) && s.c.i <= s.c.cnt && (s.c.cnt == 0 || s.c.cnt == |s.log.lastWrite|)
  {
    hide InBounds, RequestInvariant;
  }

  lemma {:induction false} CopyOut(s0: State, s: State) returns (t: State, choices: seq<Choice>)
    requires Kept(s0, s) && s.c.pc.ReadCopy? && s.c.i <= s.c.cnt == |s.log.lastWrite|
    ensures t == Run(s, choices) && Kept(s0, t) && t.c.pc.Ready?
    ensures ReadBack(t.log, s.log.lastWrite, s.c.room) && t.log.expired == s.log.expired && t.sh.stop == s.sh.stop
    decreases s.c.cnt - s.c.i
  {
    hide Run, Kept, RxMatches;
    KeptStep(s0, s, Go);
    CopyingOut(s0, s);
    var u := Step(s, Go);
    if s.c.i < s.c.cnt {
      var more;
      t, more := CopyOut(s0, u);
      choices := [Go] + more;
      RunAppend(s, [Go], more);
    } else {
      t, choices := u, [Go];
    }
  }

  lemma TakeCount(s: State)
    requires s.c.pc.ReadWait? && s.sh.rxReady > 0
    ensures var t := Step(Step(s, Go), Go);
      && t.c.pc.ReadCopy? && t.c.cnt == s.sh.rxCnt && t.c.i == 0 && t.c.room == s.c.room
      && t.log == s.log.(succeeded := t.log.succeeded) && t.sh.stop == s.sh.stop
  {
  }

  lemma ReadWhole(s0: State, s: State, room: nat) returns (t: State, choices: seq<Choice>)
    requires Kept(s0, s) && s.c.pc.Ready? && !s.sh.stop && Orderly(s0, Begun(s.log, BeginRead(room)))
    ensures t == Run(s, choices) && Kept(s0, t) && t.c.pc.Ready? && !t.sh.stop
    ensures ReadBack(t.log, s.log.lastWrite, room) && t.log.expired == s.log.expired
  {
    hide Run, Kept, Works, Step, Resting, WillCount, Coming, RequestInvariant, Orderly;
    var n := Rest(s0, s);
    var s1 := Run(s, Works(n));
    SameBegun(s0, s.log, s1.log, room);
    var s2, c2 := PostRead(s0, s1, room);
    var m := Rest(s0, s2);
    var s3 := Run(s2, Works(m));
    WorksWillCount(s0, s2, m);
    CountAtRest(s0, s3);
    TakeCount(s3);
    var s4, c4 := GoTwice(s0, s3);
    var c5;
    t, c5 := CopyOut(s0, s4);
    choices := Works(n) + c2 + Works(m) + c4 + c5;
    RunAppend(s, Works(n), c2);
    RunAppend(s, Works(n) + c2, Works(m));
    RunAppend(s, Works(n) + c2 + Works(m), c4);
    RunAppend(s, Works(n) + c2 + Works(m) + c4, c5);
  }

  lemma SameBegun(s0: State, log: Log, log': Log, room: nat)
    requires Orderly(s0, Begun(log, BeginRead(room)))
    requires log'.first == log.first && log'.longest == log.longest
    ensures Orderly(s0, Begun(log', BeginRead(room)))
  {
  }

  /** From every state of an orderly run in which the client is idle, with expired reads before or
      without, a read into a buffer for `room` bytes can return the whole of the last write; then all
      of its bytes but the first `room` have been stored past the buffer. */
  lemma ReadOverrunsItsBuffer(s0: State, before: seq<Choice>, room: nat) returns (after: seq<Choice>)
    requires Initial(s0) && Run(s0, before).c.pc.Ready?
    requires Orderly(s0, Begun(Run(s0, before).log, BeginRead(room)))
    ensures var sent, t := Run(s0, before).log.lastWrite, Run(Run(s0, before), after);
      && t.c.pc.Ready? && t.log.expired == Run(s0, before).log.expired
      && t.log.lastWrite == sent && t.log.lastCount == |sent|
      && t.log.lastRead == sent[..Lesser(|sent|, room)]
      && t.log.lastSpill == |sent| - Lesser(|sent|, room)
  {
    hide Run, Sound, Orderly;
    var s := Run(s0, before);
    BegunEarlier(s0, s.log, BeginRead(room));
    RunLoopsBack(s0, before);
    ReadyNotStopped(s0, before);
    var t;
    t, after := ReadWhole(s0, s, room);
  }

  lemma BegunEarlier(s0: State, log: Log, a: Choice)
    requires Orderly(s0, Begun(log, a))
    ensures Orderly(s0, log)
  {
  }

  lemma ReadyNotStopped(s0: State, before: seq<Choice>)
    requires Initial(s0) && Run(s0, before).c.pc.Ready?
    ensures !Run(s0, before).sh.stop
  {
    hide Run;
    RunKeeps(s0, before);
  }

  // ----- A write -----

  /** The client copies its data in, astray or not. */
  lemma {:induction false} CopyIn(s: State) returns (t: State, choices: seq<Choice>)
    requires s.c.pc.WriteCopy? && s.c.i <= |s.c.data|
    ensures t == Run(s, choices) && t.c.pc.WriteCmd? && t.w == s.w
    ensures t.sh == s.sh.(txBuf := t.sh.txBuf) && t.log == s.log.(lastWrite := s.c.data, stray := t.log.stray)
    decreases |s.c.data| - s.c.i
  {
    hide Run;
    RunOne(s, Go);
    var u := Step(s, Go);
    if s.c.i < |s.c.data| {
      var more;
      t, more := CopyIn(u);
      choices := [Go] + more;
      RunAppend(s, [Go], more);
    } else {
      t, choices := u, [Go];
    }
  }

  /** From an idle client to a command about to be stored; the worker does not move. */
  lemma StartWrite(s: State, data: seq<char>) returns (t: State, choices: seq<Choice>)
    requires s.c.pc.Ready?
    ensures t == Run(s, choices) && t.c.pc.WriteCmd? && t.w == s.w && t.sh.stop == s.sh.stop
    ensures t.log == Begun(s.log, BeginWrite(data)).(lastWrite := data, stray := t.log.stray)
  {
    hide Run, Begun;
    var a := BeginWrite(data);
    RunOne(s, a);
    RunOne(Step(s, a), Go);
    RunAppend(s, [a], [Go]);
    var more;
    t, more := CopyIn(Step(Step(s, a), Go));
    choices := [a] + [Go] + more;
    RunAppend(s, [a] + [Go], more);
  }

  /** From every reachable state in which the client is idle, a write of any data can return. */
  lemma WriteCanReturn(s0: State, before: seq<Choice>, data: seq<char>) returns (after: seq<Choice>)
    requires Initial(s0) && Run(s0, before).c.pc.Ready?
    ensures var s, t := Run(s0, before), Run(Run(s0, before), after);
      && t.c.pc.Ready? && t.log.lastWrite == data && t.log.expired == s.log.expired
      && t.log.first == Begun(s.log, BeginWrite(data)).first && t.log.longest == Begun(s.log, BeginWrite(data)).longest
  {
    hide Run, Works, RequestInvariant, Step, Begun, Coming, Resting;
    var s := Run(s0, before);
    RunKeepsRequests(s0, before);
    ReadyNotStopped(s0, before);
    var n := Drain(s);
    WorksRun(s, n);
    var s1 := Run(s, Works(n));
    var s2, c2 := StartWrite(s1, data);
    var first := Works(n) + c2;
    RunAppend(s, Works(n), c2);
    RunAppend(s0, before, first);
    RunKeepsRequests(s0, before + first);
    PostAtRest(s1, s2);
    var s4 := Step(Step(s2, Go), Go);
    StepKeepsRequests(s2, Go);
    StepKeepsRequests(Step(s2, Go), Go);
    var m := Drain(s4);
    WorksRun(s4, m);
    var s5 := Run(s4, Works(m));
    AtRest(s5);
    TakeAnswer(s5);
    TakesWrite(s5);
    SameBegin(s.log, s1.log, BeginWrite(data));
    RunOne(s2, Go);
    RunOne(Step(s2, Go), Go);
    RunOne(s5, Go);
    RunAppend(s, first, [Go]);
    RunAppend(s, first + [Go], [Go]);
    RunAppend(s, first + [Go] + [Go], Works(m));
    RunAppend(s, first + [Go] + [Go] + Works(m), [Go]);
    after := first + [Go] + [Go] + Works(m) + [Go];
  }

  lemma SameBegin(log: Log, log': Log, a: Choice)
    requires log'.first == log.first && log'.longest == log.longest
    ensures Begun(log', a).first == Begun(log, a).first && Begun(log', a).longest == Begun(log, a).longest
    ensures Begun(log', a).expired == log'.expired
  {
  }

  lemma PostAtRest(rest: State, s: State)
    requires Resting(rest) && s.w == rest.w && s.c.pc.WriteCmd?
    ensures var t := Step(Step(s, Go), Go);
      t.c.pc.WriteWait? && Coming(t, Writes) && t.log == s.log && t.sh.stop == s.sh.stop
  {
  }

  lemma TakesWrite(s: State)
    requires s.c.pc.WriteWait?
    ensures Step(s, Go).log == s.log
  {
  }

  /** For every write longer than a channel, from every reachable state in which the client is idle,
      there is a run in which it leaves the channel. */
  lemma LongWriteCanStray(s0: State, before: seq<Choice>, data: seq<char>) returns (after: seq<Choice>)
    requires Initial(s0) && Run(s0, before).c.pc.Ready? && |data| > CAPACITY
    ensures Run(s0, before + after).log.stray > 0 && Run(s0, before + after).log.longest >= |data|
  {
    hide Run;
    var t;
    t, after := StartWrite(Run(s0, before), data);
    RunAppend(s0, before, after);
    LongWriteStrays(s0, before + after);
  }

  /** For every fresh device whose length does not fit there is a run that begins with a read, with no
      write and no expired read, in which the worker leaves the channels. */
  lemma FirstReadCanStray(s: State, room: nat) returns (choices: seq<Choice>)
    requires Initial(s) && CAPACITY < s.sh.txLen < INT_LIMIT
    ensures var t := Run(s, choices);
      t.log.stray > 0 && t.log.first == Some(BeginRead(room)) && t.log.longest == 0 && InTime(t)
  {
    hide Run, Works, RequestInvariant;
    var t, first := FirstRead(s, room);
    NoStep(s);
    RunKeepsRequests(s, first);
    var n := Drain(t);
    WorksRun(t, n);
    var u := Run(t, Works(n));
    AtRest(u);
    RunAppend(s, first, Works(n));
    RunOne(u, Go);
    choices := first + Works(n) + [Go];
    RunAppend(s, first + Works(n), [Go]);
    TakesToken(u);
    RunFirst(s, choices);
  }

  lemma TakesToken(s: State)
    requires s.c.pc.ReadWait? && s.sh.rxReady > 0
    ensures var t := Step(s, Go);
      t.c.pc.ReadTake? && t.log == s.log.(succeeded := t.log.succeeded) && t.sh.stop == s.sh.stop
  {
  }

  lemma FirstRead(s: State, room: nat) returns (t: State, choices: seq<Choice>)
    requires Initial(s)
    ensures t == Run(s, choices) && t.c.pc.ReadWait? && InTime(t) && Coming(t, Reads)
    ensures t.log.first == Some(BeginRead(room)) && t.log.longest == 0
  {
    var a := BeginRead(room);
    t := Step(Step(Step(Step(s, a), Go), Go), Go);
    choices := [a] + [Go] + [Go] + [Go];
    FirstReadSteps(s, room);
    hide Step, Run;
    RunOne(s, a);
    RunOne(Step(s, a), Go);
    RunOne(Step(Step(s, a), Go), Go);
    RunOne(Step(Step(Step(s, a), Go), Go), Go);
    RunAppend(s, [a], [Go]);
    RunAppend(s, [a] + [Go], [Go]);
    RunAppend(s, [a] + [Go] + [Go], [Go]);
  }

  lemma FirstReadSteps(s: State, room: nat)
    requires Initial(s)
    ensures var t := Step(Step(Step(Step(s, BeginRead(room)), Go), Go), Go);
      && t.c.pc.ReadWait? && InTime(t) && Coming(t, Reads)
      && t.log.first == Some(BeginRead(room)) && t.log.longest == 0
  {
  }
}
