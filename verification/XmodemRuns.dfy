/** The main results about whole runs: an open, then any sequence of reads up to the first one
    that fails, on any line. */
module XmodemRuns {
  import opened Crc
  import opened Line
  import opened Util
  import opened Xmodem
  import opened XmodemTrace
  import opened XmodemSafety

  /** The receiver after the reads of the given sizes, or after the first that fails. */
  function Run(s: Rx, sizes: seq<int>): Rx
    requires Readable(s)
    decreases |sizes|
  {
    if sizes == [] then s else
    var r := Read(s, sizes[0]).s;
    if Readable(r) then Run(r, sizes[1..]) else r
  }

  /** All the bytes those reads return. */
  function Returned(s: Rx, sizes: seq<int>): seq<byte>
    requires Readable(s)
    decreases |sizes|
  {
    if sizes == [] then [] else
    var r := Read(s, sizes[0]);
    if Readable(r.s) then r.data + Returned(r.s, sizes[1..]) else r.data
  }

  lemma OpenEstablishes(s: Rx)
    requires |s.pkt| >= BIG
    ensures var r := Open(s);
      Readable(r) && Invariant(Bytes(s.line), r) && Holding(r)
  {
    var t := [Put(POLL)];
    Snoc([], Put(POLL));
    SnocOrder([], Put(POLL));
    assert [] + t == t;
    assert Bytes(s.line)[..0] == [];
    assert HasNumber(1, 0);
  }

  lemma {:induction false} RunKeeps(input: seq<byte>, s: Rx, sizes: seq<int>)
    requires Readable(s) && Invariant(input, s) && Holding(s)
    ensures var r := Run(s, sizes);
      && Invariant(input, r)
      && (if Readable(r) then Holding(r) else Drained(r))
      && Given(r.trace) == Given(s.trace) + Returned(s, sizes)
    decreases |sizes|
  {
    hide Read, Invariant, Given, Owed, Readable;
    if sizes == [] {
      assert Given(s.trace) + [] == Given(s.trace);
    } else {
      ReadKeeps(input, s, sizes[0]);
      var r := Read(s, sizes[0]);
      if Readable(r.s) {
        RunKeeps(input, r.s, sizes[1..]);
        assert Given(s.trace) + r.data + Returned(r.s, sizes[1..])
            == Given(s.trace) + (r.data + Returned(r.s, sizes[1..]));
      }
    }
  }

  /** Bytes received but not yet returned. */
  function StillPending(s: Rx): seq<byte> {
    if Readable(s) then Pending(s) else []
  }

  lemma RunFromOpen(s0: Rx, sizes: seq<int>)
    requires |s0.pkt| >= BIG
    ensures var start := Open(s0);
      && Readable(start)
      && var s := Run(start, sizes);
      && Invariant(Bytes(s0.line), s)
      && Returned(start, sizes) == Given(s.trace)
      && Returned(start, sizes) + StillPending(s) == Owed(s.trace)
  {
    hide Run, Returned, Invariant, Owed;
    var start := Open(s0);
    OpenEstablishes(s0);
    RunKeeps(Bytes(s0.line), start, sizes);
    Snoc([], Put(POLL));
    assert [] + [Put(POLL)] == [Put(POLL)];
    var s := Run(start, sizes);
    assert Given(s.trace) + [] == Given(s.trace);
    assert [] + Returned(start, sizes) == Returned(start, sizes);
  }

  /** Conservation.  The bytes returned by the reads, followed by those still pending, are the
      padding-free contents of the accepted blocks, in order, exactly when no retry loop of the
      run has spent its last attempt on a duplicate; otherwise there are more bytes than that. */
  lemma Conservation(s0: Rx, sizes: seq<int>)
    requires |s0.pkt| >= BIG
    ensures var start := Open(s0);
      && Readable(start)
      && var s := Run(start, sizes);
      && var out := Returned(start, sizes) + StillPending(s);
      && (RunInBudget(start, sizes) ==> out == Payload(Accepted(s.trace)))
      && (!RunInBudget(start, sizes) ==> |out| > |Payload(Accepted(s.trace))|)
  {
    hide Run, Returned, Readable, RunInBudget;
    RunFromOpen(s0, sizes);
    OwedIsPayload(Run(Open(s0), sizes).trace);
    RunOverrun(Open(s0), sizes);
  }

  /** The accepted blocks are whole, disjoint pieces of the input in the order of the input; each
      has a correct complement and checksum; and they are numbered 1, 2, 3, ... modulo 256. */
  lemma AcceptedBlocks(s0: Rx, sizes: seq<int>)
    requires |s0.pkt| >= BIG
    ensures var start := Open(s0);
      && Readable(start)
      && var s := Run(start, sizes);
      && var frames := Accepted(s.trace);
      && Carved(Bytes(s0.line), frames)
      && (forall i :: 0 <= i < |frames| ==> Sound(frames[i]) && frames[i].blk as int == (i + 1) % 256)
  {
    hide Run, Open, Readable, Sound, Returned;
    RunFromOpen(s0, sizes);
    var s := Run(Open(s0), sizes);
    var input, rest := Bytes(s0.line), Bytes(s.line);
    assert input == input[..|input| - |rest|] + rest;
    CarvedLonger(input[..|input| - |rest|], rest, Accepted(s.trace));
    forall i | 0 <= i < |Accepted(s.trace)|
      ensures Accepted(s.trace)[i].blk as int == (i + 1) % 256
    {
      assert HasNumber(Accepted(s.trace)[i].blk, i);
    }
  }

  /** Every accepted block is acknowledged once, the last one perhaps not yet; every duplicate
      is acknowledged once more; and the end of the file is acknowledged twice. */
  lemma Acknowledgements(s0: Rx, sizes: seq<int>)
    requires |s0.pkt| >= BIG
    ensures var start := Open(s0);
      && Readable(start)
      && var s := Run(start, sizes);
      Acks(s.trace) == |Accepted(s.trace)| - One(s.txAck) + Duplicates(s.trace) + 2 * One(s.atEof)
  {
    hide Run, Open, Readable, Returned;
    RunFromOpen(s0, sizes);
  }

  /** Nothing, and so no acknowledgement, is sent while the caller is still owed bytes of a
      block: at every transmission he has got every byte received so far. */
  lemma DeferredAcknowledgement(s0: Rx, sizes: seq<int>, i: nat)
    requires |s0.pkt| >= BIG
    requires var start := Open(s0); Readable(start) && i < |Run(start, sizes).trace|
    ensures var t := Run(Open(s0), sizes).trace;
      t[i].Put? ==> Given(t[..i]) == Owed(t[..i])
  {
    hide Run, Open, Readable, Returned, Given, Owed;
    RunFromOpen(s0, sizes);
  }

  // ----- When the retry budget is spent on a duplicate -----

  /** All attempts ask for another one, and the last of them saw a duplicate. */
  predicate SpentOnDuplicate(s: Rx, retries: nat)
    requires |s.pkt| >= BIG && retries > 0
    decreases retries, |s.line|
  {
    var (s1, stat, step) := Attempt(s);
    step.Again? && if retries == 1 then stat.Ok? else SpentOnDuplicate(s1, retries - 1)
  }

  /** No fetch of this read spends its budget that way. */
  predicate ReadInBudget(s: Rx, size: int)
    requires Readable(s)
    decreases |s.line|, size
  {
    s.atEof || size <= 0 ||
    var (s1, stat) := Refill(s);
    var n := Min(size, s1.len);
    && (s.len == 0 ==> !SpentOnDuplicate(s, MAX_RETRIES))
    && (stat == Ok ==> ReadInBudget(Copy(s1, n), size - n))
  }

  predicate RunInBudget(s: Rx, sizes: seq<int>)
    requires Readable(s)
    decreases |sizes|
  {
    sizes == [] ||
    var r := Read(s, sizes[0]).s;
    ReadInBudget(s, sizes[0]) && (Readable(r) ==> RunInBudget(r, sizes[1..]))
  }

  lemma NoOverrunSnoc(t: seq<Action>, a: Action)
    ensures NoOverrun(t + [a]) <==> NoOverrun(t) && !a.Overrun?
  {
    assert (t + [a])[|t|] == a;
    assert forall i :: 0 <= i < |t| ==> (t + [a])[i] == t[i];
  }

  lemma NoOverrunGives(t: seq<Action>, data: seq<byte>)
    ensures NoOverrun(t + Gives(data)) <==> NoOverrun(t)
  {
    assert forall i :: 0 <= i < |t| ==> (t + Gives(data))[i] == t[i];
  }

  /** What the reaction to a header attempt adds to the trace. */
  lemma ReactActions(s: Rx, stat: Stat)
    requires stat.Ok? ==> 0 <= s.len <= |s.pkt|
    ensures var (r, stat', step) := React(s, stat);
      if stat.Cancel? then r.trace == s.trace && stat'.Cancel? && step.Stop?
      else if stat.Eof? then r.trace == s.trace + [Put(ACK)] && stat'.Eof? && step.Stop?
      else
        && !stat'.Cancel? && !stat'.Eof?
        && (|| r.trace == s.trace + [Accept(CurrentFrame(s))]
            || r.trace == s.trace + [Duplicate] + [Put(ACK)]
            || r.trace == s.trace + [Put(POLL)])
  {
    hide Stripped, IsPrevious, CurrentFrame;
  }

  lemma ReactOverrun(s: Rx, stat: Stat)
    requires stat.Ok? ==> 0 <= s.len <= |s.pkt|
    ensures NoOverrun(React(s, stat).0.trace) <==> NoOverrun(s.trace)
  {
    hide NoOverrun, React, CurrentFrame;
    ReactActions(s, stat);
    NoOverrunSnoc(s.trace, Accept(CurrentFrame(s)));
    NoOverrunSnoc(s.trace, Duplicate);
    NoOverrunSnoc(s.trace + [Duplicate], Put(ACK));
    NoOverrunSnoc(s.trace, Put(ACK));
    NoOverrunSnoc(s.trace, Put(POLL));
  }

  lemma AttemptOverrun(s: Rx)
    requires |s.pkt| >= BIG
    ensures NoOverrun(Attempt(s).0.trace) <==> NoOverrun(s.trace)
  {
    hide GetHdr, NoOverrun, React;
    var s0 := s.(trace := s.trace + [Try]);
    var (s1, stat) := GetHdr(s0);
    HeaderActions(s0);
    NoOverrunSnoc(s.trace, Try);
    NoOverrunSnoc(s0.trace, Put(ACK));
    NoOverrunSnoc(HeaderTrace(s0.trace, s.txAck, false), Put(ACK));
    ReactOverrun(s1, stat);
  }

  lemma {:induction false} FetchOverrun(s: Rx, retries: nat)
    requires |s.pkt| >= BIG && retries > 0
    ensures NoOverrun(Fetch(s, retries).0.trace) <==> NoOverrun(s.trace) && !SpentOnDuplicate(s, retries)
    decreases retries
  {
    hide Attempt, NoOverrun;
    var (s1, stat, step) := Attempt(s);
    AttemptOverrun(s);
    if step.Again? {
      if retries > 1 {
        FetchOverrun(s1, retries - 1);
      } else if stat.Ok? {
        NoOverrunSnoc(s1.trace, Overrun(s1.pkt[..s1.len]));
      }
    }
  }

  lemma RefillOverrun(s: Rx)
    requires Readable(s) && !s.atEof
    ensures NoOverrun(Refill(s).0.trace) <==>
      NoOverrun(s.trace) && (s.len == 0 ==> !SpentOnDuplicate(s, MAX_RETRIES))
  {
    hide Fetch, SpentOnDuplicate, NoOverrun;
    if s.len == 0 {
      FetchOverrun(s, MAX_RETRIES);
    }
  }

  lemma {:induction false} ReadOverrun(s: Rx, size: int)
    requires Readable(s)
    ensures NoOverrun(Read(s, size).s.trace) <==> NoOverrun(s.trace) && ReadInBudget(s, size)
    decreases |s.line|, size
  {
    hide Read, Refill, SpentOnDuplicate, NoOverrun;
    if s.atEof || size <= 0 {
      ReadDone(s, size);
    } else {
      ReadStep(s, size);
      RefillOverrun(s);
      var (s1, stat) := Refill(s);
      if stat == Ok {
        var n := Min(size, s1.len);
        NoOverrunGives(s1.trace, s1.pkt[s1.bufp..s1.bufp + n]);
        ReadOverrun(Copy(s1, n), size - n);
      }
    }
  }

  lemma {:induction false} RunOverrun(s: Rx, sizes: seq<int>)
    requires Readable(s)
    ensures NoOverrun(Run(s, sizes).trace) <==> NoOverrun(s.trace) && RunInBudget(s, sizes)
    decreases |sizes|
  {
    hide Read, ReadInBudget, NoOverrun;
    if sizes != [] {
      ReadOverrun(s, sizes[0]);
      var r := Read(s, sizes[0]).s;
      if Readable(r) {
        RunOverrun(r, sizes[1..]);
      }
    }
  }

  // ----- Every attempt is answered once -----

  function Final(stat: Stat): int { One(stat.Eof? || stat.Cancel?) }

  lemma ReactBalance(s: Rx, stat: Stat)
    requires stat.Ok? ==> 0 <= s.len <= |s.pkt|
    ensures var (r, stat', step) := React(s, stat);
      && Balance(r.trace) == Balance(s.trace) + 1 - Final(stat)
      && Final(stat') == Final(stat) && (step.Again? ==> Final(stat') == 0)
  {
    hide Balance, React, CurrentFrame;
    ReactActions(s, stat);
    BalanceSnoc(s.trace, Accept(CurrentFrame(s)));
    BalanceSnoc(s.trace, Duplicate);
    BalanceSnoc(s.trace + [Duplicate], Put(ACK));
    BalanceSnoc(s.trace, Put(ACK));
    BalanceSnoc(s.trace, Put(POLL));
  }

  lemma AttemptBalance(s: Rx)
    requires |s.pkt| >= BIG
    ensures var (r, stat, step) := Attempt(s);
      Balance(r.trace) == Balance(s.trace) - Final(stat) && (step.Again? ==> Final(stat) == 0)
  {
    hide GetHdr, Balance, React;
    var s0 := s.(trace := s.trace + [Try]);
    var (s1, stat) := GetHdr(s0);
    HeaderActions(s0);
    BalanceSnoc(s.trace, Try);
    BalanceSnoc(s0.trace, Put(ACK));
    BalanceSnoc(HeaderTrace(s0.trace, s.txAck, false), Put(ACK));
    ReactBalance(s1, stat);
  }

  lemma {:induction false} FetchBalance(s: Rx, retries: nat)
    requires |s.pkt| >= BIG && retries > 0
    ensures var (r, stat) := Fetch(s, retries); Balance(r.trace) == Balance(s.trace) - Final(stat)
    decreases retries
  {
    hide Attempt, Balance;
    var (s1, stat, step) := Attempt(s);
    AttemptBalance(s);
    if step.Again? {
      if retries > 1 {
        FetchBalance(s1, retries - 1);
      } else if stat.Ok? {
        BalanceSnoc(s1.trace, Overrun(s1.pkt[..s1.len]));
      }
    }
  }

  lemma RefillBalance(s: Rx)
    requires Readable(s) && !s.atEof
    ensures var (r, stat) := Refill(s); Balance(r.trace) == Balance(s.trace) - Final(stat)
  {
    hide Fetch, Balance;
    if s.len == 0 {
      FetchBalance(s, MAX_RETRIES);
    }
  }

  lemma {:induction false} ReadBalance(s: Rx, size: int)
    requires Readable(s)
    ensures var r := Read(s, size);
      && Balance(r.s.trace) == Balance(s.trace) - (if r.err.Some? then Final(r.err.value) else 0)
      && r.s.atEof == (s.atEof || r.err == Some(Eof))
      && (s.atEof ==> r.err == None)
    decreases |s.line|, size
  {
    hide Read, Refill, Balance;
    if s.atEof || size <= 0 {
      ReadDone(s, size);
    } else {
      ReadStep(s, size);
      RefillBalance(s);
      var (s1, stat) := Refill(s);
      if stat == Ok {
        var n := Min(size, s1.len);
        BalanceGives(s1.trace, s1.pkt[s1.bufp..s1.bufp + n]);
        ReadBalance(Copy(s1, n), size - n);
      }
    }
  }

  lemma {:induction false} RunBalance(s: Rx, sizes: seq<int>)
    requires Readable(s) && Balance(s.trace) == 1 - One(s.atEof)
    ensures var r := Run(s, sizes); Readable(r) ==> Balance(r.trace) == 1 - One(r.atEof)
    decreases |sizes|
  {
    hide Read, Balance;
    if sizes != [] {
      ReadBalance(s, sizes[0]);
      var r := Read(s, sizes[0]);
      if Readable(r.s) {
        NotFailed(s, sizes[0]);
        RunBalance(r.s, sizes[1..]);
      }
    }
  }

  lemma {:induction false} NotFailed(s: Rx, size: int)
    requires Readable(s)
    ensures var r := Read(s, size); r.Failed() <==> !Readable(r.s)
    decreases |s.line|, size
  {
    hide Read, Refill;
    if s.atEof || size <= 0 {
      ReadDone(s, size);
    } else {
      ReadStep(s, size);
      var (s1, stat) := Refill(s);
      if stat == Ok {
        var n := Min(size, s1.len);
        NotFailed(Copy(s1, n), size - n);
      }
    }
  }

  /** As long as no read has failed, every header attempt has been answered exactly once, by a poll
      or by the acceptance or recognition of a block, except the one that met the end of the file;
      one more poll opened the transfer. */
  lemma EveryAttemptAnswered(s0: Rx, sizes: seq<int>)
    requires |s0.pkt| >= BIG
    ensures var start := Open(s0);
      && Readable(start)
      && var s := Run(start, sizes);
      Readable(s) ==>
        PollsSent(s.trace) + |Accepted(s.trace)| + Duplicates(s.trace) + One(s.atEof) == Tries(s.trace) + 1
  {
    hide Run;
    BalanceSnoc([], Put(POLL));
    assert [] + [Put(POLL)] == [Put(POLL)];
    RunBalance(Open(s0), sizes);
  }

  // ----- Bounded work -----

  lemma ReactTries(s: Rx, stat: Stat)
    requires stat.Ok? ==> 0 <= s.len <= |s.pkt|
    ensures Tries(React(s, stat).0.trace) == Tries(s.trace)
  {
    hide Tries, React, CurrentFrame;
    ReactActions(s, stat);
    Snoc(s.trace, Accept(CurrentFrame(s)));
    Snoc(s.trace, Duplicate);
    Snoc(s.trace + [Duplicate], Put(ACK));
    Snoc(s.trace, Put(ACK));
    Snoc(s.trace, Put(POLL));
  }

  lemma AttemptTries(s: Rx)
    requires |s.pkt| >= BIG
    ensures Tries(Attempt(s).0.trace) == Tries(s.trace) + 1
  {
    hide GetHdr, Tries, React;
    var s0 := s.(trace := s.trace + [Try]);
    var (s1, stat) := GetHdr(s0);
    HeaderActions(s0);
    Snoc(s.trace, Try);
    Snoc(s0.trace, Put(ACK));
    Snoc(HeaderTrace(s0.trace, s.txAck, false), Put(ACK));
    ReactTries(s1, stat);
  }

  lemma {:induction false} FetchTries(s: Rx, retries: nat)
    requires |s.pkt| >= BIG && retries > 0
    ensures Tries(s.trace) <= Tries(Fetch(s, retries).0.trace) <= Tries(s.trace) + retries
    decreases retries
  {
    hide Attempt, Tries;
    var (s1, stat, step) := Attempt(s);
    AttemptTries(s);
    if step.Again? {
      if retries == 1 {
        if stat.Ok? {
          Snoc(s1.trace, Overrun(s1.pkt[..s1.len]));
        }
      } else {
        FetchTries(s1, retries - 1);
      }
    }
  }

  /** The attempts made by a read: at most 200 for every block it got, each of which took at least
      133 bytes off the line, and at most 200 more if it ends in an error or at the end of file. */
  lemma {:induction false} ReadTries(s: Rx, size: int)
    requires Readable(s)
    ensures var r := Read(s, size);
      133 * (Tries(r.s.trace) - Tries(s.trace)) <=
        MAX_RETRIES * (|s.line| - |r.s.line|) + (if r.err.Some? then 133 * MAX_RETRIES else 0)
    decreases |s.line|, size
  {
    hide Refill, Read, Tries, Fetch;
    if s.atEof || size <= 0 {
      ReadDone(s, size);
    } else {
      ReadStep(s, size);
      RefillTries(s);
      var (s1, stat) := Refill(s);
      if stat == Ok {
        var n := Min(size, s1.len);
        SnocGives(s1.trace, s1.pkt[s1.bufp..s1.bufp + n]);
        ReadTries(Copy(s1, n), size - n);
      }
    }
  }

  lemma RefillTries(s: Rx)
    requires Readable(s) && !s.atEof
    ensures var (r, stat) := Refill(s);
      133 * (Tries(r.trace) - Tries(s.trace)) <=
        if stat.Ok? then MAX_RETRIES * (|s.line| - |r.line|) else 133 * MAX_RETRIES
  {
    hide Fetch, Tries;
    if s.len == 0 {
      FetchTries(s, MAX_RETRIES);
    }
  }
}
