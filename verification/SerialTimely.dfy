/** Runs of the serial device in which no read has expired: request and answer alternate strictly, no
    request is lost, a read returns all of the last write, and the copy loops leave the buffers
    exactly in the runs that are not orderly. */
module SerialTimely {
  import opened Island
  import opened Serial
  import opened SerialRequests
  import opened SerialBuffers
  import opened SerialLoopback
  import opened Util

  /** The worker has nothing in hand and is on its way to, or at, its wait. */
  predicate Parked(w: Worker) {
    w.land == Idle && !w.quit && (w.pc.Switch? || w.pc.Wait? || w.pc.LoopEnd?)
  }

  function LandOf(x: Command): Land {
    match x
    case NoCmd => Idle
    case Wr => Tx
    case Rd => Rx
  }

  /** The worker is executing command `x`. */
  predicate Executing(s: State, x: Command) {
    var w := s.w;
    && !w.quit
    && match w.pc
       case FirstCheck => s.sh.cmd == x && w.land == Idle
       case ReadCmd => s.sh.cmd == x && w.land == Idle
       case ClearCmd => s.sh.cmd == x && w.held == x && w.land == Idle
       case Board => s.sh.cmd == NoCmd && w.held == x && w.land == Idle
       case LastCheck => s.sh.cmd == NoCmd && w.land == LandOf(x)
       case LoopEnd => s.sh.cmd == NoCmd && w.land == LandOf(x)
       case Switch => s.sh.cmd == NoCmd && w.land == LandOf(x)
       case TxBoard => s.sh.cmd == NoCmd && w.land == Tx && x == Wr
       case TxPost => s.sh.cmd == NoCmd && w.land == Idle && x == Wr
       case RxBoard => s.sh.cmd == NoCmd && w.land == Rx && x == Rd
       case RxLen => s.sh.cmd == NoCmd && w.land == Idle && x == Rd
       case RxCopy => s.sh.cmd == NoCmd && w.land == Idle && x == Rd
       case RxCnt => s.sh.cmd == NoCmd && w.land == Idle && x == Rd
       case RxPost => s.sh.cmd == NoCmd && w.land == Idle && x == Rd
       case _ => false
  }

  predicate NoTokens(s: State) { s.sh.active == 0 && s.sh.txReady == 0 && s.sh.rxReady == 0 }

  /** One request for `x`, in one of its three stages. */
  predicate InFlight(s: State, x: Command) {
    || (Parked(s.w) && s.sh.cmd == x && s.sh.active == 1 && s.sh.txReady == 0 && s.sh.rxReady == 0)
    || (Executing(s, x) && NoTokens(s))
    || (Parked(s.w) && s.sh.cmd == NoCmd && s.sh.active == 0
        && s.sh.txReady == One(x == Wr) && s.sh.rxReady == One(x == Rd))
  }

  predicate Alternates(s: State) {
    match s.c.pc
    case WriteWait => InFlight(s, Wr)
    case ReadWait => InFlight(s, Rd)
    case WritePost => Parked(s.w) && NoTokens(s) && s.sh.cmd == Wr
    case ReadPost => Parked(s.w) && NoTokens(s) && s.sh.cmd == Rd
    case StopPost => false
    case Join => false
    case Gone => false
    case _ => Parked(s.w) && NoTokens(s) && s.sh.cmd == NoCmd
  }

  predicate InTime(s: State) { s.log.expired == 0 && !s.sh.stop }

  lemma WorkOnRequest(s: State, x: Command)
    requires InFlight(s, x) && x != NoCmd && !s.sh.stop && WorkerEnabled(s)
    ensures InFlight(WorkerStep(s), x) && WorkerStep(s).c == s.c
  {
  }

  lemma WorkParked(s: State)
    requires Parked(s.w) && NoTokens(s) && WorkerEnabled(s)
    ensures Parked(WorkerStep(s).w) && WorkerStep(s).sh == s.sh && WorkerStep(s).c == s.c
  {
  }

  lemma WorkAlternates(s: State)
    requires Alternates(s) && !s.sh.stop && WorkerEnabled(s)
    ensures Alternates(WorkerStep(s))
  {
    hide WorkerStep, InFlight, Parked, WorkerEnabled;
    if s.c.pc.WriteWait? {
      WorkOnRequest(s, Wr);
    } else if s.c.pc.ReadWait? {
      WorkOnRequest(s, Rd);
    } else {
      WorkParked(s);
    }
  }

  lemma GoAlternates(s: State)
    requires Alternates(s) && !ClientStep(s).sh.stop
    ensures Alternates(ClientStep(s))
  {
  }

  lemma StepInTime(s: State, a: Choice)
    requires InTime(Step(s, a))
    ensures InTime(s)
  {
  }

  lemma StepAlternates(s: State, a: Choice)
    requires InTime(Step(s, a)) && Alternates(s)
    ensures Alternates(Step(s, a))
  {
    hide WorkerStep, ClientStep;
    StepInTime(s, a);
    if a.Work? {
      if WorkerEnabled(s) {
        WorkAlternates(s);
      }
    } else if a.Go? {
      GoAlternates(s);
    }
  }

  lemma {:induction false} TimelyRun(s0: State, choices: seq<Choice>)
    requires Initial(s0) && InTime(Run(s0, choices))
    ensures Alternates(Run(s0, choices))
  {
    hide Step, Alternates;
    if choices == [] {
      InitiallyTimely(s0);
    } else {
      var r, a := Run(s0, choices[..|choices| - 1]), choices[|choices| - 1];
      StepInTime(r, a);
      TimelyRun(s0, choices[..|choices| - 1]);
      StepAlternates(r, a);
    }
  }

  lemma InitiallyTimely(s: State)
    requires Initial(s)
    ensures Alternates(s)
  {
  }

  predicate Waiting(c: Client) { c.pc.WriteWait? || c.pc.ReadWait? }

  /** Requests on their way: posted, in the worker's hands, or answered. */
  function Requests(s: State): nat {
    s.sh.active + One(!Parked(s.w)) + s.sh.txReady + s.sh.rxReady
  }

  /** As long as no read has expired, the client is waiting exactly when one request is in flight,
      and otherwise there is none; an idle client finds all semaphores at 0, the slot empty and the
      worker idle; and a waiting client is never stuck: its answer is there or the worker can move. */
  lemma RequestsAlternate(s0: State, choices: seq<Choice>)
    requires Initial(s0) && InTime(Run(s0, choices))
    ensures var s := Run(s0, choices);
      && Requests(s) == One(Waiting(s.c))
      && (s.c.pc.Ready? ==>
            s.sh.active == s.sh.txReady == s.sh.rxReady == 0 && s.sh.cmd == NoCmd && s.w.land == Idle)
      && (Waiting(s.c) ==>
            WorkerEnabled(s) || (s.c.pc.WriteWait? && s.sh.txReady == 1) || (s.c.pc.ReadWait? && s.sh.rxReady == 1))
  {
    hide Run;
    TimelyRun(s0, choices);
  }

  // ----- No request is lost -----

  /** While no read has expired the worker is never about to clear the slot when a command is stored,
      and what a waiting client waits for is there within `LongestCopy` + 21 of the worker's steps. */
  lemma TimelyRequests(s0: State, choices: seq<Choice>, x: Request)
    requires Initial(s0) && InTime(Run(s0, choices))
    ensures var s := Run(s0, choices);
      && (Storing(s.c, x) ==> !s.w.pc.ClearCmd?)
      && (Waits(s.c, x) ==> Coming(s, x) && forall after :: CountWork(after) >= LongestCopy(s) + 21 ==>
            GetsAnswer(s, x, after) || GivesUp(s, x, after))
  {
    hide Run, CountWork, RequestInvariant, GetsAnswer, GivesUp, LongestCopy;
    TimelyRun(s0, choices);
    RunKeepsRequests(s0, choices);
    var s := Run(s0, choices);
    if Waits(s.c, x) {
      forall after | CountWork(after) >= LongestCopy(s) + 21
        ensures GetsAnswer(s, x, after) || GivesUp(s, x, after)
      {
        AnswerInTime(s, x, after);
      }
    }
  }

  // ----- Loopback -----

  /** The count that a read takes back is that of the last write. */
  predicate Counts(s: State) {
    && (s.w.pc.RxPost? || s.sh.rxReady == 1 || s.c.pc.ReadTake? ==> s.sh.rxCnt == NextCopy(s))
    && (s.c.pc.ReadCopy? ==> s.c.cnt == |s.log.lastWrite|)
  }

  lemma WorkCounts(s: State)
    requires Alternates(s) && LoopsBack(s) && Counts(s) && !s.sh.stop && WorkerEnabled(s)
    ensures Counts(WorkerStep(s))
  {
    hide RxMatches;
  }

  lemma GoCounts(s: State)
    requires Alternates(s) && TxHolds(s) && Counts(s) && (InRead(s.c.pc) ==> Fits(s.sh.txLen))
    ensures Counts(ClientStep(s))
  {
  }

  lemma StepCounts(s: State, a: Choice, fits: bool)
    requires Alternates(s) && Sound(s, fits) && Counts(s) && !s.sh.stop
    ensures Counts(Step(s, a))
  {
    hide WorkerStep, ClientStep, Alternates, Invariant, InBounds, SignInvariant, CommandInvariant;
    FitsWhenReceiving(s, fits);
    if a.Work? {
      if WorkerEnabled(s) {
        WorkCounts(s);
      }
    } else if a.Go? {
      GoCounts(s);
    }
  }

  lemma {:induction false} RunCounts(s0: State, choices: seq<Choice>)
    requires Initial(s0) && InTime(Run(s0, choices)) && Orderly(s0, Run(s0, choices).log)
    ensures Counts(Run(s0, choices))
  {
    hide Step, Alternates, Sound, Counts, Orderly;
    if choices == [] {
      InitiallyCounts(s0);
    } else {
      var r, a := Run(s0, choices[..|choices| - 1]), choices[|choices| - 1];
      StepInTime(r, a);
      OrderlyBefore(s0, r, a);
      RunCounts(s0, choices[..|choices| - 1]);
      TimelyRun(s0, choices[..|choices| - 1]);
      RunLoopsBack(s0, choices[..|choices| - 1]);
      StepCounts(r, a, Fits(s0.sh.txLen));
    }
  }

  lemma InitiallyCounts(s: State)
    requires Initial(s)
    ensures Counts(s)
  {
  }

  /** In an orderly run without expired reads, a read that completes returns the length of the last
      write; the copy stays inside the caller's buffer, and the buffer holds the whole of the last
      write, exactly if the last write is no longer than the buffer. */
  lemma TimelyLoopback(s0: State, choices: seq<Choice>)
    requires Initial(s0) && InTime(Run(s0, choices)) && Orderly(s0, Run(s0, choices).log)
    ensures var s := Run(s0, choices);
      var t, sent, room := Step(s, Go).log, s.log.lastWrite, s.c.room;
      Completes(s) ==>
        && t.lastCount == |sent| && t.lastRead == sent[..Lesser(|sent|, room)]
        && (t.lastSpill == 0 <==> |sent| <= room)
        && (t.lastRead == sent <==> |sent| <= room)
  {
    hide Run, Orderly;
    Loopback(s0, choices);
    RunCounts(s0, choices);
  }

  // ----- Exactly when the copy loops go astray -----

  /** A first read that is bound to go astray is still on its way to the first stray byte. */
  predicate Straying(s0: State, s: State) {
    && s.sh.txLen == s0.sh.txLen && s.sh.rxReady == 0
    && InRead(s.c.pc) && !s.c.pc.ReadTake? && !s.c.pc.ReadCopy?
    && !s.w.pc.RxCnt? && !s.w.pc.RxPost?
    && (s.w.pc.RxCopy? ==> s.w.len == NextCopy(s) && s.w.i <= CAPACITY)
  }

  predicate FirstReadStrays(s0: State, s: State) {
    && (s.log.first.None? ==> s.sh.txLen == s0.sh.txLen && s.c.pc.Ready?)
    && (ReadFirst(s.log) && !Fits(s0.sh.txLen) ==> s.log.stray > 0 || Straying(s0, s))
  }

  lemma WorkFirst(s0: State, s: State)
    requires BufferInvariant(s) && FirstReadStrays(s0, s) && WorkerEnabled(s)
    ensures FirstReadStrays(s0, WorkerStep(s))
  {
    WorkTakes(s);
    WorkStrays(s);
  }

  lemma GoFirst(s0: State, s: State)
    requires FirstReadStrays(s0, s)
    ensures FirstReadStrays(s0, ClientStep(s))
  {
  }

  lemma StepFirst(s0: State, s: State, a: Choice)
    requires BufferInvariant(s) && Alternates(s) && FirstReadStrays(s0, s) && !a.Expire?
    ensures FirstReadStrays(s0, Step(s, a))
  {
    hide WorkerStep, ClientStep;
    if a.Work? {
      if WorkerEnabled(s) {
        WorkFirst(s0, s);
      }
    } else if a.Go? {
      GoFirst(s0, s);
    }
  }

  lemma ExpireSame(s: State)
    requires InTime(Step(s, Expire))
    ensures Step(s, Expire) == s
  {
  }

  lemma {:induction false} RunFirst(s0: State, choices: seq<Choice>)
    requires Initial(s0) && InTime(Run(s0, choices))
    ensures FirstReadStrays(s0, Run(s0, choices))
  {
    hide Step, Alternates, FirstReadStrays, Invariant;
    if choices == [] {
      InitiallyFirst(s0);
    } else {
      var r, a := Run(s0, choices[..|choices| - 1]), choices[|choices| - 1];
      StepInTime(r, a);
      RunFirst(s0, choices[..|choices| - 1]);
      TimelyRun(s0, choices[..|choices| - 1]);
      RunKeeps(s0, choices[..|choices| - 1]);
      BuffersOnly(r);
      if a.Expire? {
        ExpireSame(r);
      } else {
        StepFirst(s0, r, a);
      }
    }
  }

  lemma InitiallyFirst(s: State)
    requires Initial(s)
    ensures FirstReadStrays(s, s)
  {
  }

  /** Exactly when the copy loops have left the buffers, in runs without expired reads and when no
      call is in progress: some write was longer than a channel, or the first call was a read and the
      length the fresh device happened to have did not fit. */
  lemma StraysExactly(s0: State, choices: seq<Choice>)
    requires Initial(s0) && InTime(Run(s0, choices)) && Run(s0, choices).c.pc.Ready?
    ensures Run(s0, choices).log.stray > 0 <==> !Orderly(s0, Run(s0, choices).log)
  {
    hide Run;
    if Orderly(s0, Run(s0, choices).log) {
      CopiesInBounds(s0, choices);
    } else {
      LongWriteStrays(s0, choices);
      RunFirst(s0, choices);
    }
  }
}
