/** What an expired read can do to later requests: a run in which the next write hangs for ever, and one
    in which a later read is never served.

    In the first, the read expires after the worker has read its RD command but before the worker
    clears the slot; the write stores its WR command in between, and the worker wipes it out.  In the
    second, the write takes the place of the RD command but not of its token; the token that is left
    over brings the worker to the clear again just when the next read stores its command.
    `SerialRequests` shows that there is no other way to lose a request.  */
module SerialLost {
  import opened Island
  import opened Serial
  import opened SerialRequests

  /** Nobody can move: the client waits for `tx_ready`, the worker for `active`. */
  predicate Stuck(s: State) {
    && s.c.pc.WriteWait? && s.sh.txReady == 0
    && s.w.pc.Wait? && s.sh.active == 0
  }

  lemma {:induction false} StuckForever(s: State, choices: seq<Choice>)
    requires Stuck(s)
    ensures Run(s, choices) == s
  {
    if choices != [] {
      StuckForever(s, choices[..|choices| - 1]);
    }
  }

  lemma ReadIsSent(s: State) returns (t: State, choices: seq<Choice>)
    requires Initial(s)
    ensures t == Run(s, choices)
    ensures t.c.pc.ReadWait? && t.w == s.w && t.log.expired == 0
    ensures !t.sh.stop && t.sh.cmd == Rd && t.sh.active == 1 && t.sh.txReady == 0 && t.sh.rxReady == 0
  {
    t := Step(Step(Step(Step(s, BeginRead(0)), Go), Go), Go);
    choices := [BeginRead(0), Go, Go] + [Go];
    Three(s, BeginRead(0), Go, Go);
    RunOne(Run(s, [BeginRead(0), Go, Go]), Go);
    RunAppend(s, [BeginRead(0), Go, Go], [Go]);
  }

  lemma ReadExpires(s: State) returns (t: State, choices: seq<Choice>)
    requires s.c.pc.ReadWait? && s.w == Worker(Switch, Idle, NoCmd, false, 0, 0) && s.log.expired == 0
    requires !s.sh.stop && s.sh.cmd == Rd && s.sh.active == 1 && s.sh.txReady == 0
    ensures t == Run(s, choices)
    ensures t.c.pc.Ready? && t.w == Worker(ClearCmd, Idle, Rd, false, 0, 0) && t.log.expired == 1
    ensures !t.sh.stop && t.sh.active == 0 && t.sh.txReady == 0
  {
    var s3 := Step(Step(Step(s, Work), Work), Work);
    t := Step(Step(s3, Work), Expire);
    choices := [Work, Work, Work] + [Work] + [Expire];
    Three(s, Work, Work, Work);
    RunOne(s3, Work);
    RunOne(Step(s3, Work), Expire);
    RunAppend(s, [Work, Work, Work], [Work]);
    RunAppend(s, [Work, Work, Work] + [Work], [Expire]);
  }

  lemma Nine(s: State, a: Choice, b: Choice, c: Choice, d: Choice, e: Choice, f: Choice,
      g: Choice, h: Choice, i: Choice)
    ensures Run(s, [a, b, c, d, e, f, g, h, i]) ==
      Step(Step(Step(Step(Step(Step(Step(Step(Step(s, a), b), c), d), e), f), g), h), i)
  {
    hide Step;
    Three(s, a, b, c);
    var s3 := Run(s, [a, b, c]);
    Three(s3, d, e, f);
    var s6 := Run(s3, [d, e, f]);
    Three(s6, g, h, i);
    RunAppend(s, [a, b, c], [d, e, f]);
    RunAppend(s, [a, b, c] + [d, e, f], [g, h, i]);
    assert [a, b, c] + [d, e, f] + [g, h, i] == [a, b, c, d, e, f, g, h, i];
  }

  lemma Three(s: State, a: Choice, b: Choice, c: Choice)
    ensures Run(s, [a, b, c]) == Step(Step(Step(s, a), b), c)
  {
    hide Step;
    RunOne(s, a);
    RunOne(Step(s, a), b);
    RunOne(Step(Step(s, a), b), c);
    RunAppend(s, [a], [b]);
    RunAppend(s, [a] + [b], [c]);
    assert [a] + [b] + [c] == [a, b, c];
  }

  lemma WriteIsWipedOut(s: State) returns (t: State, choices: seq<Choice>)
    requires s.c.pc.Ready? && s.w == Worker(ClearCmd, Idle, Rd, false, 0, 0)
    requires s.log.expired == 1 && !s.sh.stop && s.sh.active == 0 && s.sh.txReady == 0
    ensures t == Run(s, choices)
    ensures t.c.pc.WriteWait? && t.w == Worker(Board, Idle, Rd, false, 0, 0)
    ensures t.log.expired == 1 && !t.sh.stop
    ensures t.sh.active == 1 && t.sh.txReady == 0 && t.sh.cmd == NoCmd && t.sh.txLen == 0
  {
    var w := BeginWrite([]);
    t := Step(Step(Step(Step(Step(Step(s, w), Go), Go), Go), Work), Go);
    choices := [w, Go, Go] + [Go, Work, Go];
    Three(s, w, Go, Go);
    Three(Run(s, [w, Go, Go]), Go, Work, Go);
    RunAppend(s, [w, Go, Go], [Go, Work, Go]);
  }

  lemma WorkerServesTheRead(s: State) returns (t: State, choices: seq<Choice>)
    requires s.c.pc.WriteWait? && s.w == Worker(Board, Idle, Rd, false, 0, 0)
    requires s.log.expired == 1 && !s.sh.stop
    requires s.sh.active == 1 && s.sh.txReady == 0 && s.sh.cmd == NoCmd && s.sh.txLen == 0
    ensures t == Run(s, choices)
    ensures t.c.pc.WriteWait? && t.w == Worker(LoopEnd, Idle, Rd, false, 0, 0)
    ensures t.log.expired == 1 && !t.sh.stop && t.sh.active == 1 && t.sh.txReady == 0 && t.sh.cmd == NoCmd
  {
    var s3 := Step(Step(Step(s, Work), Work), Work);
    assert s3.w == Worker(Switch, Rx, Rd, false, 0, 0);
    var s6 := Step(Step(Step(s3, Work), Work), Work);
    assert s6.w == Worker(RxCopy, Idle, Rd, false, 0, 0);
    t := Step(Step(Step(s6, Work), Work), Work);
    choices := [Work, Work, Work, Work, Work, Work, Work, Work, Work];
    Nine(s, Work, Work, Work, Work, Work, Work, Work, Work, Work);
  }

  lemma WorkerFindsNothing(s: State) returns (t: State, choices: seq<Choice>)
    requires s.c.pc.WriteWait? && s.w == Worker(LoopEnd, Idle, Rd, false, 0, 0)
    requires s.log.expired == 1 && !s.sh.stop && s.sh.active == 1 && s.sh.txReady == 0 && s.sh.cmd == NoCmd
    ensures t == Run(s, choices) && Stuck(t) && t.log.expired == 1
  {
    var s3 := Step(Step(Step(s, Work), Work), Work);
    assert s3.w == Worker(FirstCheck, Idle, Rd, false, 0, 0) && s3.sh.active == 0;
    var s6 := Step(Step(Step(s3, Work), Work), Work);
    assert s6.w == Worker(Board, Idle, NoCmd, false, 0, 0);
    t := Step(Step(Step(Step(s6, Work), Work), Work), Work);
    choices := [Work, Work, Work, Work, Work, Work, Work, Work, Work] + [Work];
    Nine(s, Work, Work, Work, Work, Work, Work, Work, Work, Work);
    RunOne(Run(s, [Work, Work, Work, Work, Work, Work, Work, Work, Work]), Work);
    RunAppend(s, [Work, Work, Work, Work, Work, Work, Work, Work, Work], [Work]);
  }

  /** From every initial state there is a run with one expired read after which a write waits for
      ever, whatever happens next. */
  lemma ExpiredReadCanLoseAWrite(s: State) returns (before: seq<Choice>)
    requires Initial(s)
    ensures Run(s, before).c.pc.WriteWait? && Run(s, before).log.expired == 1
    ensures forall after :: Run(s, before + after) == Run(s, before)
  {
    hide Run, Step;
    var t0, c0 := ReadIsSent(s);
    var t1, c1 := ReadExpires(t0);
    var t2, c2 := WriteIsWipedOut(t1);
    var t3, c3 := WorkerServesTheRead(t2);
    var t4, c4 := WorkerFindsNothing(t3);
    before := c0 + c1 + c2 + c3 + c4;
    RunAppend(s, c0, c1);
    RunAppend(s, c0 + c1, c2);
    RunAppend(s, c0 + c1 + c2, c3);
    RunAppend(s, c0 + c1 + c2 + c3, c4);
    forall after
      ensures Run(s, before + after) == Run(s, before)
    {
      RunAppend(s, before, after);
      StuckForever(t4, after);
    }
  }

  // ----- A lost read -----

  lemma WriteTakesThePlace(s: State) returns (t: State, choices: seq<Choice>)
    requires s.c.pc.ReadWait? && s.w == Worker(Switch, Idle, NoCmd, false, 0, 0) && s.log.expired == 0
    requires !s.sh.stop && s.sh.active == 1 && s.sh.txReady == 0 && s.sh.rxReady == 0
    ensures t == Run(s, choices)
    ensures t.c.pc.WriteWait? && t.w == s.w && t.log.expired == 1
    ensures !t.sh.stop && t.sh.cmd == Wr && t.sh.active == 2 && t.sh.txReady == 0 && t.sh.rxReady == 0
  {
    var w := BeginWrite([]);
    t := Step(Step(Step(Step(Step(Step(s, Expire), w), Go), Go), Go), Go);
    choices := [Expire, w, Go] + [Go, Go, Go];
    Three(s, Expire, w, Go);
    Three(Run(s, [Expire, w, Go]), Go, Go, Go);
    RunAppend(s, [Expire, w, Go], [Go, Go, Go]);
  }

  lemma WorkerTakesTheWrite(s: State) returns (t: State, choices: seq<Choice>)
    requires s.c.pc.WriteWait? && s.w == Worker(Switch, Idle, NoCmd, false, 0, 0) && s.log.expired == 1
    requires !s.sh.stop && s.sh.cmd == Wr && s.sh.active == 2 && s.sh.txReady == 0 && s.sh.rxReady == 0
    ensures t == Run(s, choices)
    ensures t.c.pc.WriteWait? && t.w == Worker(TxBoard, Tx, Wr, false, 0, 0) && t.log.expired == 1
    ensures !t.sh.stop && t.sh.cmd == NoCmd && t.sh.active == 1 && t.sh.txReady == 0 && t.sh.rxReady == 0
  {
    var s3 := Step(Step(Step(s, Work), Work), Work);
    assert s3.w == Worker(ReadCmd, Idle, NoCmd, false, 0, 0);
    var s6 := Step(Step(Step(s3, Work), Work), Work);
    assert s6.w == Worker(LastCheck, Tx, Wr, false, 0, 0);
    t := Step(Step(Step(s6, Work), Work), Work);
    choices := [Work, Work, Work, Work, Work, Work, Work, Work, Work];
    Nine(s, Work, Work, Work, Work, Work, Work, Work, Work, Work);
  }

  lemma TokenIsLeftOver(s: State) returns (t: State, choices: seq<Choice>)
    requires s.c.pc.WriteWait? && s.w == Worker(TxBoard, Tx, Wr, false, 0, 0) && s.log.expired == 1
    requires !s.sh.stop && s.sh.cmd == NoCmd && s.sh.active == 1 && s.sh.txReady == 0 && s.sh.rxReady == 0
    ensures t == Run(s, choices)
    ensures t.c.pc.ReadSend? && t.w == Worker(ClearCmd, Idle, NoCmd, false, 0, 0) && t.log.expired == 1
    ensures t.sh.rxReady == 0
  {
    var r := BeginRead(0);
    var s3 := Step(Step(Step(s, Work), Work), Go);
    assert s3.c.pc.Ready? && s3.w == Worker(LoopEnd, Idle, Wr, false, 0, 0);
    var s6 := Step(Step(Step(s3, Work), Work), Work);
    assert s6.w == Worker(FirstCheck, Idle, Wr, false, 0, 0) && s6.c.pc.Ready?;
    var s9 := Step(Step(Step(s6, Work), Work), r);
    t := Step(s9, Go);
    choices := [Work, Work, Go, Work, Work, Work, Work, Work, r] + [Go];
    Nine(s, Work, Work, Go, Work, Work, Work, Work, Work, r);
    RunOne(s9, Go);
    RunAppend(s, [Work, Work, Go, Work, Work, Work, Work, Work, r], [Go]);
  }

  /** From every initial state there is a run with one expired read after which the next read gets no
      answer as long as it waits, whatever happens. */
  lemma LeftoverTokenCanLoseARead(s: State) returns (before: seq<Choice>)
    requires Initial(s)
    ensures Run(s, before).c.pc.ReadSend? && Run(s, before).log.expired == 1 && !WillCome(Run(s, before), Reads)
    ensures forall after :: Lasts(Step(Run(s, before), Go), Reads, after) ==>
      Run(Step(Run(s, before), Go), after).sh.rxReady == 0
  {
    hide Run, Step, Lasts;
    var t0, c0 := ReadIsSent(s);
    var t1, c1 := WriteTakesThePlace(t0);
    var t2, c2 := WorkerTakesTheWrite(t1);
    var t3, c3 := TokenIsLeftOver(t2);
    before := c0 + c1 + c2 + c3;
    RunAppend(s, c0, c1);
    RunAppend(s, c0 + c1, c2);
    RunAppend(s, c0 + c1 + c2, c3);
    forall after | Lasts(Step(t3, Go), Reads, after)
      ensures Run(Step(t3, Go), after).sh.rxReady == 0
    {
      RequestFate(s, before, Reads, after);
    }
  }
}
