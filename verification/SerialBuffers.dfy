/** When the copy loops of the serial device stay inside its buffers.  Two things take them out: a
    write longer than a channel, whose length is not checked, and a read as the first call on a
    fresh device, whose transmit length has not been set. */
module SerialBuffers {
  import opened Serial

  predicate ReadFirst(log: Log) { log.first.Some? && log.first.value.BeginRead? }

  /** No write that has begun is longer than a channel, and the length a fresh device happens to have
      fits or the first call has not been a read. */
  predicate Orderly(s0: State, log: Log) {
    log.longest <= CAPACITY && (Fits(s0.sh.txLen) || !ReadFirst(log))
  }

  /** A length that is too long for the channel, and one that is negative when taken as an int. */
  lemma FitsExactly(len: nat)
    ensures Fits(len) <==> len <= 0x2000 || len >= 0x8000_0000
    ensures len >= 0x8000_0000 ==> CopyCount(len) == 0
  {
  }

  predicate InRead(pc: ClientPc) {
    pc.ReadCnt? || pc.ReadSend? || pc.ReadPost? || pc.ReadWait? || pc.ReadTake? || pc.ReadCopy?
  }

  predicate InWrite(pc: ClientPc) {
    pc.WriteLen? || pc.WriteCopy? || pc.WriteCmd? || pc.WritePost? || pc.WriteWait?
  }

  /** The transmit length fits, or it has never been set and no read has begun. */
  predicate LengthSet(s: State) {
    !Fits(s.sh.txLen) ==>
      && s.log.issued == 0 && !InRead(s.c.pc)
      && (InWrite(s.c.pc) ==> s.c.pc.WriteLen?)
      && (s.c.pc.Ready? ==> s.log.first.None?)
  }

  /** The count of a read is 0 or one that the worker has stored. */
  predicate CountFits(s: State) {
    && (s.log.issued > 0 || (InRead(s.c.pc) && !s.c.pc.ReadCnt?) ==> s.sh.rxCnt <= CAPACITY)
    && (s.c.pc.ReadCopy? ==> s.c.cnt <= CAPACITY)
  }

  predicate InBounds(s: State, fits: bool) {
    && s.log.stray == 0
    && (fits ==> Fits(s.sh.txLen)) && LengthSet(s)
    && s.w.len <= CAPACITY && |s.c.data| <= CAPACITY
    && CountFits(s)
  }

  lemma WorkInBounds(s: State, fits: bool)
    requires LandInvariant(s.w) && BufferInvariant(s) && TokenInvariant(s) && InBounds(s, fits) && WorkerEnabled(s)
    ensures InBounds(WorkerStep(s), fits)
  {
  }

  lemma GoInBounds(s: State, fits: bool)
    requires BufferInvariant(s) && InBounds(s, fits)
    ensures InBounds(ClientStep(s), fits)
  {
  }

  lemma OrderlyBefore(s0: State, s: State, a: Choice)
    requires Orderly(s0, Step(s, a).log)
    ensures Orderly(s0, s.log)
  {
    hide WorkerStep, ClientStep;
    if a.Work? && WorkerEnabled(s) {
      WorkTakes(s);
    } else if a.Go? {
      GoCalls(s);
    }
  }

  lemma GoCalls(s: State)
    ensures var t := ClientStep(s); t.log.first == s.log.first && t.log.longest == s.log.longest
  {
  }

  lemma StepInBounds(s0: State, s: State, a: Choice)
    requires Invariant(s) && InBounds(s, Fits(s0.sh.txLen)) && Orderly(s0, Step(s, a).log)
    ensures InBounds(Step(s, a), Fits(s0.sh.txLen))
  {
    hide WorkerStep, ClientStep, Fits;
    if a.Work? {
      if WorkerEnabled(s) {
        WorkInBounds(s, Fits(s0.sh.txLen));
      }
    } else if a.Go? {
      GoInBounds(s, Fits(s0.sh.txLen));
    }
  }

  lemma {:induction false} RunInBounds(s0: State, choices: seq<Choice>)
    requires Initial(s0) && Orderly(s0, Run(s0, choices).log)
    ensures InBounds(Run(s0, choices), Fits(s0.sh.txLen))
  {
    hide Step, Orderly, InBounds, Invariant;
    if choices == [] {
      InitiallyInBounds(s0);
    } else {
      var r, a := Run(s0, choices[..|choices| - 1]), choices[|choices| - 1];
      OrderlyBefore(s0, r, a);
      RunInBounds(s0, choices[..|choices| - 1]);
      RunKeeps(s0, choices[..|choices| - 1]);
      StepInBounds(s0, r, a);
    }
  }

  lemma InitiallyInBounds(s: State)
    requires Initial(s)
    ensures InBounds(s, Fits(s.sh.txLen))
  {
  }

  /** No copy loop leaves the buffers of the device in a run, with expired reads or without, in which
      no write is longer than a channel and either the length of the fresh device fits or the first
      call is not a read; and while a call waits, the worker's copies are no longer than a channel. */
  lemma CopiesInBounds(s0: State, choices: seq<Choice>)
    requires Initial(s0) && Orderly(s0, Run(s0, choices).log)
    ensures var s := Run(s0, choices);
      && s.log.stray == 0
      && (InRead(s.c.pc) || (InWrite(s.c.pc) && !s.c.pc.WriteLen?) ==> LongestCopy(s) <= CAPACITY)
  {
    hide Run;
    RunInBounds(s0, choices);
  }

  // ----- Longer writes -----

  /** A write longer than a channel has gone astray, or is on its way there. */
  predicate LongStrays(s: State) {
    || s.log.longest <= CAPACITY || s.log.stray > 0
    || (|s.c.data| > CAPACITY && (s.c.pc.WriteLen? || s.c.pc.WriteCopy?) && s.c.i <= CAPACITY)
  }

  lemma StepLong(s: State, a: Choice)
    requires BufferInvariant(s) && LongStrays(s)
    ensures LongStrays(Step(s, a))
  {
    hide WorkerStep;
    if a.Work? && WorkerEnabled(s) {
      WorkTakes(s);
      WorkStrays(s);
    }
  }

  lemma WorkStrays(s: State)
    requires WorkerEnabled(s)
    ensures WorkerStep(s).log.stray >= s.log.stray
  {
  }

  lemma {:induction false} RunLong(s0: State, choices: seq<Choice>)
    requires Initial(s0)
    ensures LongStrays(Run(s0, choices))
  {
    hide Step, LongStrays, Invariant;
    if choices == [] {
      InitiallyShort(s0);
    } else {
      var r, a := Run(s0, choices[..|choices| - 1]), choices[|choices| - 1];
      RunLong(s0, choices[..|choices| - 1]);
      RunKeeps(s0, choices[..|choices| - 1]);
      BuffersOnly(r);
      StepLong(r, a);
    }
  }

  lemma InitiallyShort(s: State)
    requires Initial(s)
    ensures LongStrays(s)
  {
  }

  lemma BuffersOnly(s: State)
    requires Invariant(s)
    ensures BufferInvariant(s)
  {
  }

  /** In every run, a write longer than a channel has left it by the time its copy is done. */
  lemma LongWriteStrays(s0: State, choices: seq<Choice>)
    requires Initial(s0)
    ensures var s := Run(s0, choices);
      s.log.longest > CAPACITY && !s.c.pc.WriteLen? && !s.c.pc.WriteCopy? ==> s.log.stray > 0
  {
    hide Run;
    RunLong(s0, choices);
  }
}
