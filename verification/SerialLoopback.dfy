/** The DEBUG loopback over all orderly runs, with expired reads: what a read that completes returns. */
module SerialLoopback {
  import opened Serial
  import opened SerialRequests
  import opened SerialBuffers

  /** The data of the last write is in place in the transmit channel, or being put there. */
  predicate TxHolds(s: State) {
    && |s.sh.txBuf| == CAPACITY && |s.sh.rxBuf| == CAPACITY && |s.c.data| <= CAPACITY
    && (if s.c.pc.WriteCopy? then
          s.sh.txLen == |s.c.data| && s.c.i <= |s.c.data| && s.sh.txBuf[..s.c.i] == s.c.data[..s.c.i]
        else
          && (s.c.pc.WriteLen? ==> s.c.i == 0)
          && (Fits(s.sh.txLen) ==> s.sh.txBuf[..NextCopy(s)] == s.log.lastWrite))
  }

  /** The first `n` bytes received are those of the last write. */
  predicate RxMatches(s: State, n: nat) {
    && n <= |s.sh.rxBuf| && n <= |s.log.lastWrite|
    && s.sh.rxBuf[..n] == s.log.lastWrite[..n]
  }

  predicate RxComplete(s: State) { s.sh.rxCnt == NextCopy(s) && RxMatches(s, s.sh.rxCnt) }

  function Lesser(m: nat, n: nat): nat { if m < n then m else n }

  /** The client is copying out nothing or the last write: what fits its buffer is in it, the rest
      has gone past its end. */
  predicate CopiesBack(s: State) {
    && (s.c.cnt == 0 || s.c.cnt == |s.log.lastWrite|) && RxMatches(s, s.c.cnt) && s.c.i <= s.c.cnt
    && s.c.out == s.log.lastWrite[..Lesser(s.c.i, s.c.room)]
    && s.c.spilled == s.c.i - Lesser(s.c.i, s.c.room)
  }

  /** What the worker is copying or has copied is the last write. */
  predicate WorkerCopies(s: State) {
    && (s.w.pc.RxCopy? ==> s.w.len == NextCopy(s) && s.w.i <= s.w.len && RxMatches(s, s.w.i))
    && (s.w.pc.RxCnt? ==> s.w.i == NextCopy(s) && RxMatches(s, s.w.i))
  }

  predicate ClientCopies(s: State) {
    && (InRead(s.c.pc) && !s.c.pc.ReadCnt? && !s.c.pc.ReadCopy? ==> s.sh.rxCnt == 0 || RxComplete(s))
    && (s.c.pc.ReadCopy? ==> CopiesBack(s))
  }

  /** Only while a write is under way may the receive side be out of step. */
  predicate LoopsBack(s: State) {
    TxHolds(s) && (InWrite(s.c.pc) || (WorkerCopies(s) && ClientCopies(s)))
  }

  // ----- The worker -----

  /** Copying one more byte of the transmit channel, which holds the last write, spoils nothing. */
  lemma CopyMatches(s: State, n: nat)
    requires TxHolds(s) && !s.c.pc.WriteCopy? && Fits(s.sh.txLen)
    requires s.w.i < NextCopy(s) && RxMatches(s, n)
    ensures var t := s.(sh := s.sh.(rxBuf := s.sh.rxBuf[s.w.i := s.sh.txBuf[s.w.i]]));
      RxMatches(t, n) && (n == s.w.i ==> RxMatches(t, n + 1))
  {
    assert s.sh.txBuf[..NextCopy(s)][s.w.i] == s.sh.txBuf[s.w.i];
    var t := s.sh.rxBuf[s.w.i := s.sh.txBuf[s.w.i]];
    assert forall k :: 0 <= k < n ==> s.sh.rxBuf[..n][k] == s.log.lastWrite[..n][k];
    assert t[..n] == s.log.lastWrite[..n];
  }

  lemma RxMatchesSame(s: State, t: State, n: nat)
    requires s.sh.rxBuf == t.sh.rxBuf && s.log.lastWrite == t.log.lastWrite
    ensures RxMatches(s, n) == RxMatches(t, n)
  {
  }

  lemma NothingMatches(s: State)
    ensures RxMatches(s, 0)
  {
  }

  lemma CopyStep(s: State)
    requires LoopsBack(s) && !InWrite(s.c.pc) && Fits(s.sh.txLen) && s.w.pc.RxCopy? && s.w.i < s.w.len
    ensures LoopsBack(WorkerStep(s))
  {
    hide RxMatches;
    var t := WorkerStep(s);
    NothingMatches(s);
    CopyMatches(s, s.w.i);
    if RxMatches(s, s.sh.rxCnt) {
      CopyMatches(s, s.sh.rxCnt);
      RxMatchesSame(t, s.(sh := s.sh.(rxBuf := t.sh.rxBuf)), s.sh.rxCnt);
    }
    if RxMatches(s, s.c.cnt) {
      CopyMatches(s, s.c.cnt);
      RxMatchesSame(t, s.(sh := s.sh.(rxBuf := t.sh.rxBuf)), s.c.cnt);
    }
    RxMatchesSame(t, s.(sh := s.sh.(rxBuf := t.sh.rxBuf)), s.w.i + 1);
  }

  lemma OtherWork(s: State)
    requires LoopsBack(s) && !InWrite(s.c.pc) && WorkerEnabled(s)
    requires !(s.w.pc.RxCopy? && s.w.i < s.w.len)
    ensures LoopsBack(WorkerStep(s))
  {
    hide RxMatches;
    var t := WorkerStep(s);
    RxMatchesSame(s, t, s.w.i);
    RxMatchesSame(s, t, s.sh.rxCnt);
    RxMatchesSame(s, t, s.c.cnt);
    NothingMatches(t);
  }

  lemma WorkLoopsBack(s: State)
    requires LoopsBack(s) && WorkerEnabled(s) && (Receiving(s.w.pc) ==> InWrite(s.c.pc) || Fits(s.sh.txLen))
    ensures LoopsBack(WorkerStep(s))
  {
    hide WorkerCopies, ClientCopies;
    if InWrite(s.c.pc) {
      WorkKeepsTx(s);
    } else if s.w.pc.RxCopy? && s.w.i < s.w.len {
      CopyStep(s);
    } else {
      OtherWork(s);
    }
  }

  lemma WorkKeepsTx(s: State)
    requires TxHolds(s) && WorkerEnabled(s)
    ensures TxHolds(WorkerStep(s)) && WorkerStep(s).c == s.c
  {
  }

  // ----- The client -----

  lemma TakeStep(s: State)
    requires s.c.pc.ReadTake? && TxHolds(s) && Fits(s.sh.txLen) && (s.sh.rxCnt == 0 || RxComplete(s))
    ensures CopiesBack(ClientStep(s))
  {
    assert |s.log.lastWrite| == NextCopy(s);
  }

  lemma CopyOutStep(s: State)
    requires s.c.pc.ReadCopy? && TxHolds(s) && CopiesBack(s)
    ensures CopiesBack(ClientStep(s)) && ClientStep(s).w == s.w && ClientStep(s).sh == s.sh
    ensures ClientStep(s).log.lastWrite == s.log.lastWrite
  {
    if s.c.i < s.c.cnt {
      assert s.sh.rxBuf[..s.c.cnt][s.c.i] == s.log.lastWrite[..s.c.cnt][s.c.i];
    }
  }

  lemma GoWrites(s: State)
    requires TxHolds(s) && InWrite(s.c.pc)
    ensures TxHolds(ClientStep(s))
  {
  }

  lemma GoReads(s: State)
    requires LoopsBack(s) && !InWrite(s.c.pc) && (InRead(s.c.pc) ==> Fits(s.sh.txLen))
    ensures LoopsBack(ClientStep(s)) && !InWrite(ClientStep(s).c.pc)
  {
    hide RxMatches, LoopsBack, ClientStep;
    if s.c.pc.ReadCopy? {
      GoCopies(s);
    } else if s.c.pc.ReadTake? {
      GoTakes(s);
    } else {
      GoOther(s);
    }
  }

  lemma GoCopies(s: State)
    requires LoopsBack(s) && s.c.pc.ReadCopy?
    ensures LoopsBack(ClientStep(s)) && !InWrite(ClientStep(s).c.pc)
  {
    hide RxMatches, CopiesBack;
    CopyOutStep(s);
    RxMatchesSame(s, ClientStep(s), s.w.i);
  }

  lemma GoTakes(s: State)
    requires LoopsBack(s) && s.c.pc.ReadTake? && Fits(s.sh.txLen)
    ensures LoopsBack(ClientStep(s)) && !InWrite(ClientStep(s).c.pc)
  {
    hide RxMatches, CopiesBack;
    TakeStep(s);
    RxMatchesSame(s, ClientStep(s), s.w.i);
  }

  lemma GoOther(s: State)
    requires LoopsBack(s) && !InWrite(s.c.pc) && !s.c.pc.ReadCopy? && !s.c.pc.ReadTake?
    ensures LoopsBack(ClientStep(s)) && !InWrite(ClientStep(s).c.pc)
  {
    hide RxMatches, CopiesBack, TxHolds;
    var t := ClientStep(s);
    RxMatchesSame(s, t, s.w.i);
    RxMatchesSame(s, t, s.sh.rxCnt);
    GoKeepsTx(s);
  }

  lemma GoKeepsTx(s: State)
    requires TxHolds(s) && !InWrite(s.c.pc)
    ensures TxHolds(ClientStep(s))
  {
  }

  /** A write that returns leaves the worker with no command to receive. */
  lemma GoEndsWrite(s: State)
    requires LoopsBack(s) && InWrite(s.c.pc) && SignInvariant(s)
    ensures LoopsBack(ClientStep(s))
  {
    hide WorkerCopies, ClientCopies, TxHolds;
    GoWrites(s);
    var t := ClientStep(s);
    if !InWrite(t.c.pc) {
      NotReceiving(s);
    }
  }

  lemma NotReceiving(s: State)
    requires SignInvariant(s) && s.c.pc.WriteWait? && s.sh.txReady > 0
    ensures WorkerCopies(ClientStep(s)) && ClientCopies(ClientStep(s))
  {
  }

  // ----- Runs -----

  predicate Sound(s: State, fits: bool) { RequestInvariant(s) && InBounds(s, fits) && LoopsBack(s) }

  lemma FitsWhenReceiving(s: State, fits: bool)
    requires Invariant(s) && InBounds(s, fits)
    ensures Receiving(s.w.pc) || InRead(s.c.pc) ==> Fits(s.sh.txLen)
  {
  }

  lemma OtherLoopsBack(s: State, a: Choice)
    requires LoopsBack(s) && !a.Work? && !a.Go? && (a.BeginWrite? ==> |a.data| <= CAPACITY || !s.c.pc.Ready?)
    ensures LoopsBack(Step(s, a))
  {
    hide WorkerStep, ClientStep, RxMatches;
    var t := Step(s, a);
    RxMatchesSame(s, t, s.w.i);
    RxMatchesSame(s, t, s.sh.rxCnt);
    RxMatchesSame(s, t, s.c.cnt);
  }

  lemma StepLoopsBack(s0: State, s: State, a: Choice)
    requires Sound(s, Fits(s0.sh.txLen)) && Orderly(s0, Step(s, a).log)
    ensures LoopsBack(Step(s, a))
  {
    hide WorkerStep, ClientStep, Invariant, InBounds, LoopsBack, Fits, SignInvariant, CommandInvariant;
    FitsWhenReceiving(s, Fits(s0.sh.txLen));
    if a.Work? {
      if WorkerEnabled(s) {
        WorkLoopsBack(s);
      }
    } else if a.Go? {
      if InWrite(s.c.pc) {
        GoEndsWrite(s);
      } else {
        GoReads(s);
      }
    } else {
      OtherLoopsBack(s, a);
    }
  }

  lemma {:induction false} RunLoopsBack(s0: State, choices: seq<Choice>)
    requires Initial(s0) && Orderly(s0, Run(s0, choices).log)
    ensures Sound(Run(s0, choices), Fits(s0.sh.txLen))
  {
    hide Step, Orderly, InBounds, RequestInvariant, LoopsBack, Fits;
    RunInBounds(s0, choices);
    RunKeepsRequests(s0, choices);
    if choices == [] {
      InitiallyLoopsBack(s0);
    } else {
      var r, a := Run(s0, choices[..|choices| - 1]), choices[|choices| - 1];
      OrderlyBefore(s0, r, a);
      RunLoopsBack(s0, choices[..|choices| - 1]);
      StepLoopsBack(s0, r, a);
    }
  }

  lemma InitiallyLoopsBack(s: State)
    requires Initial(s)
    ensures LoopsBack(s)
  {
  }

  /** The read into a buffer for `room` bytes that the next step completes. */
  predicate Completes(s: State) { s.c.pc.ReadCopy? && Step(s, Go).c.pc.Ready? }

  /** Loopback, in every orderly run, with expired reads or without: a read that completes returns 0
      or the length of the last write, and leaves in the caller's buffer as many bytes of the last
      write as it returns and as fit; it stores past the end of that buffer exactly if it returns
      more than the buffer holds, and never if the last write fits the buffer. */
  lemma Loopback(s0: State, choices: seq<Choice>)
    requires Initial(s0) && Orderly(s0, Run(s0, choices).log)
    ensures var s := Run(s0, choices);
      var t, sent, room := Step(s, Go).log, s.log.lastWrite, s.c.room;
      Completes(s) ==>
        && (t.lastCount == 0 || t.lastCount == |sent|)
        && t.lastRead == sent[..Lesser(t.lastCount, room)]
        && t.lastSpill == t.lastCount - Lesser(t.lastCount, room)
        && (|sent| <= room ==> t.lastSpill == 0)
  {
    hide Run, InBounds, RequestInvariant;
    RunLoopsBack(s0, choices);
    var s := Run(s0, choices);
    if s.c.pc.ReadCopy? {
      CopyOutStep(s);
    }
  }
}
