/** What makes the receiver give up, poll again or stop: the search for a header, broken frames and
    silence. */
module XmodemHeader {
  import opened Crc
  import opened Line
  import opened Util
  import opened Xmodem
  import opened XmodemTrace
  import opened XmodemFrame

  function Cans(bs: seq<byte>): nat {
    if bs == [] then 0 else Cans(bs[..|bs| - 1]) + (if bs[|bs| - 1] == CAN then 1 else 0)
  }

  /** Bytes the search passes over: no header byte, fewer than three CANs in all, and no EOT at the
      very start. */
  predicate Junk(bs: seq<byte>) {
    && (forall i :: 0 <= i < |bs| ==> bs[i] != SOH && bs[i] != STX)
    && Cans(bs) < CAN_COUNT
    && (bs != [] ==> bs[0] != EOT)
  }

  lemma JunkShorter(bs: seq<byte>)
    requires Junk(bs) && bs != []
    ensures Junk(bs[..|bs| - 1])
  {
  }

  lemma {:induction false} AdvanceOne(line: Line, bs: seq<byte>, c: byte)
    requires Delivers(line, bs + [c])
    ensures Delivers(line, bs)
    ensures var r := Getc(Advance(line, |bs|)); r.Got? && r.b == c && r.rest == Advance(line, |bs| + 1)
  {
    hide Getc;
    DeliversSplit(line, bs, [c]);
    AdvanceAdd(line, |bs|, 1);
    var mid := Advance(line, |bs|);
    assert Delivers(mid, [c]) && [c][0] == c;
    assert Advance(mid, 1) == Advance(Getc(mid).rest, 0);
  }

  lemma {:induction false} SkipJunk(line: Line, junk: seq<byte>)
    requires Junk(junk) && Delivers(line, junk)
    ensures Hunt(line, 0, 0) == Hunt(Advance(line, |junk|), Cans(junk), |junk|)
    decreases |junk|
  {
    hide Getc, Delivers;
    if junk != [] {
      var n := |junk| - 1;
      JunkShorter(junk);
      assert junk == junk[..n] + [junk[n]];
      AdvanceOne(line, junk[..n], junk[n]);
      SkipJunk(line, junk[..n]);
    }
  }

  /** The first decisive byte after any junk ends the search: a header byte starts a block; the
      third CAN, adjacent or not, cancels; and EOT ends the file only with nothing before it. */
  lemma HeaderSearch(line: Line, junk: seq<byte>, c: byte)
    requires Junk(junk) && Delivers(line, junk + [c])
    ensures var h, rest := Hunt(line, 0, 0), Advance(line, |junk| + 1);
      && (c == SOH || c == STX ==> h == Header(c, rest))
      && (c == CAN && Cans(junk) == 2 ==> h == Cancelled(rest))
      && (c == EOT && junk == [] ==> h == Ended(rest))
      && (c == EOT && junk != [] ==> Junk(junk + [c]))
  {
    hide Getc, Delivers;
    AdvanceOne(line, junk, c);
    SkipJunk(line, junk);
    assert (junk + [c])[|junk|] == c && (junk + [c])[..|junk|] == junk;
  }

  /** A frame whose number and complement disagree is rejected, and whatever else can be read at
      once is thrown away with it. */
  lemma BrokenNumberFlushes(s: Rx, f: Frame)
    requires |s.pkt| >= BIG && Shaped(f) && Delivers(s.line, Wire(f)) && !Complementary(f.blk, f.cblk)
    ensures var (r, stat) := GetHdr(s);
      stat == BadFrame && r.line == Flush(Advance(s.line, |Wire(f)|)) && !Ready(r.line)
  {
    hide GetHdr, Delivers, Advance, Wire, Checksum, SendDeferredAck;
    FrameArrives(s, f);
    FlushStops(Advance(s.line, |Wire(f)|));
  }

  lemma {:induction false} FlushStops(line: Line)
    ensures !Ready(Flush(line))
  {
    if Ready(line) {
      FlushStops(line[1..]);
    }
  }

  /** The trace of an attempt up to the search for a header: a deferred acknowledgement goes out
      first. */
  function Begun(owing: bool): seq<Action> {
    [Try] + if owing then [Put(ACK)] else []
  }

  /** The trace of `n` attempts that hear nothing and poll again. */
  function Polls(owing: bool, n: nat): seq<Action> {
    if n == 0 then [] else Begun(owing) + [Put(POLL)] + Polls(false, n - 1)
  }

  lemma {:induction false} SilentFetch(s: Rx, retries: nat)
    requires |s.pkt| >= BIG && s.line == [] && retries > 0
    ensures Fetch(s, retries) == (s.(txAck := false, trace := s.trace + Polls(s.txAck, retries)), Timeout)
    decreases retries
  {
    hide Fetch, Begun;
    var first := Begun(s.txAck) + [Put(POLL)];
    var s1 := s.(txAck := false, trace := s.trace + first);
    SilentAttempt(s);
    FetchStep(s, retries);
    assert Polls(s.txAck, retries) == first + Polls(false, retries - 1);
    if retries > 1 {
      SilentFetch(s1, retries - 1);
      assert s1.trace + Polls(false, retries - 1) == s.trace + Polls(s.txAck, retries);
    } else {
      assert first + [] == first;
    }
  }

  lemma FetchStep(s: Rx, retries: nat)
    requires |s.pkt| >= BIG && retries > 0
    ensures var (s1, stat, step) := Attempt(s);
      Fetch(s, retries) ==
        if step.Stop? then (s1, stat) else if retries == 1 then GiveUp(s1, stat) else Fetch(s1, retries - 1)
  {
    hide Attempt;
  }

  lemma SilentAttempt(s: Rx)
    requires |s.pkt| >= BIG && s.line == []
    ensures Attempt(s) ==
      (s.(txAck := false, trace := s.trace + (Begun(s.txAck) + [Put(POLL)])), Timeout, Again)
  {
    SilentGetc([]);
    assert Hunt([], 0, 0) == Quiet([]);
    assert s.trace + [Try] + [Put(POLL)] == s.trace + ([Try] + [] + [Put(POLL)]);
    assert s.trace + [Try] + [Put(ACK)] + [Put(POLL)] == s.trace + ([Try] + [Put(ACK)] + [Put(POLL)]);
  }

  /** A read with nothing to hand over that meets a silent line polls exactly 200 times, after the
      acknowledgement that may be owing, and then fails with a timeout. */
  lemma SilentRead(s: Rx, size: int)
    requires Readable(s) && !s.atEof && s.len == 0 && s.line == [] && size > 0
    ensures var r := Read(s, size);
      && r.data == [] && r.err == Some(Timeout) && r.Failed()
      && r.s.trace == s.trace + Polls(s.txAck, MAX_RETRIES) && !r.s.txAck
  {
    hide Read, Fetch, Polls;
    SilentFetch(s, MAX_RETRIES);
    ReadStep(s, size);
  }

  /** Three CANs, with or without junk between them, end a read at once: no retry and no poll; only
      an acknowledgement that is owing goes out. */
  lemma CancelRead(s: Rx, junk: seq<byte>, size: int)
    requires Readable(s) && !s.atEof && s.len == 0 && size > 0
    requires Junk(junk) && Cans(junk) == 2 && Delivers(s.line, junk + [CAN])
    ensures var r := Read(s, size);
      && r.data == [] && r.err == Some(Cancel) && r.Failed()
      && r.s.trace == s.trace + Begun(s.txAck) && !r.s.txAck
      && r.s.line == Advance(s.line, |junk| + 1)
  {
    hide Read, Delivers, Hunt, Advance, Junk, Cans, Fetch;
    HeaderSearch(s.line, junk, CAN);
    assert s.trace + [Try] + [Put(ACK)] == s.trace + ([Try] + [Put(ACK)]);
    FetchStep(s, MAX_RETRIES);
    ReadStep(s, size);
  }
}
