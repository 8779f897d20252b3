/** What the receiver guarantees over every run on every input line. */
module XmodemSafety {
  import opened Crc
  import opened Line
  import opened Util
  import opened Xmodem
  import opened XmodemTrace

  // ----- Bytes consumed by one header attempt -----

  lemma TailIsSuffix(c: byte, rest: seq<byte>)
    ensures IsSuffix(rest, [c] + rest) && IsSuffix([c] + rest, [c] + rest) && IsSuffix(rest, rest)
  {
  }

  /** What is left after a search that reaches a header still has the header byte before it. */
  predicate HuntLeaves(h: Hunted, line: Line) {
    && IsSuffix(Bytes(h.rest), Bytes(line))
    && (h.Header? ==> (h.c == SOH || h.c == STX) && IsSuffix([h.c] + Bytes(h.rest), Bytes(line)))
  }

  lemma LeavesTrans(h: Hunted, rest: Line, line: Line)
    requires HuntLeaves(h, rest) && IsSuffix(Bytes(rest), Bytes(line))
    ensures HuntLeaves(h, line)
  {
    hide IsSuffix, Bytes;
    SuffixTrans(Bytes(h.rest), Bytes(rest), Bytes(line));
    if h.Header? {
      SuffixTrans([h.c] + Bytes(h.rest), Bytes(rest), Bytes(line));
    }
  }

  lemma {:induction false} HuntBytes(line: Line, cans: nat, chars: nat)
    ensures HuntLeaves(Hunt(line, cans, chars), line)
    decreases |line|
  {
    hide Getc, Bytes, Flush, Elapse, IsSuffix;
    GetcBytes(line);
    match Getc(line)
    case TimedOut(rest) =>
      assert [] + Bytes(rest) == Bytes(rest);
      FlushBytes(rest);
      ElapseBytes(Flush(rest), EXIT_TIMEOUT / POLL_INTERVAL);
    case Got(c, rest) =>
      TailIsSuffix(c, Bytes(rest));
      var more := if c == CAN then cans + 1 else cans;
      HuntBytes(rest, more, chars + 1);
      LeavesTrans(Hunt(rest, more, chars + 1), rest, line);
  }

  predicate FillTakes(s: Rx, i: nat, r: Rx, full: bool)
    requires i <= s.len <= |s.pkt|
  {
    && |r.pkt| == |s.pkt| && r.pkt[..i] == s.pkt[..i]
    && IsSuffix(Bytes(r.line), Bytes(s.line))
    && (full ==> Bytes(s.line) == r.pkt[i..s.len] + Bytes(r.line))
  }

  lemma {:induction false} FillBytes(s: Rx, i: nat)
    requires i <= s.len <= |s.pkt|
    ensures FillTakes(s, i, Fill(s, i).0, Fill(s, i).1)
    decreases s.len - i
  {
    hide Getc, Bytes, FillTakes;
    if i < s.len {
      GetcBytes(s.line);
      match Getc(s.line)
      case TimedOut(rest) =>
        assert [] + Bytes(rest) == Bytes(rest);
        FillStops(s, i, s.(line := rest), false);
      case Got(c, rest) =>
        var s1 := s.(line := rest, pkt := s.pkt[i := c]);
        FillBytes(s1, i + 1);
        FillOne(s, i, c, s1, Fill(s1, i + 1).0, Fill(s1, i + 1).1);
    } else {
      FillStops(s, i, s, true);
    }
  }

  lemma FillStops(s: Rx, i: nat, r: Rx, full: bool)
    requires i <= s.len <= |s.pkt| && r.pkt == s.pkt && Bytes(r.line) == Bytes(s.line)
    requires full ==> i == s.len
    ensures FillTakes(s, i, r, full)
  {
  }

  lemma FillOne(s: Rx, i: nat, c: byte, s1: Rx, r: Rx, full: bool)
    requires i < s.len <= |s.pkt| && s1.pkt == s.pkt[i := c] && s1.len == s.len
    requires Bytes(s.line) == [c] + Bytes(s1.line)
    requires FillTakes(s1, i + 1, r, full)
    ensures FillTakes(s, i, r, full)
  {
    hide Bytes;
    SuffixTrans(Bytes(r.line), Bytes(s1.line), Bytes(s.line));
    StoredByte(s.pkt, r.pkt, c, i, s.len);
  }

  lemma StoredByte(before: seq<byte>, after: seq<byte>, c: byte, i: nat, n: nat)
    requires i < n <= |before| == |after|
    requires after[..i + 1] == before[i := c][..i + 1]
    ensures after[..i] == before[..i]
    ensures after[i..n] == [c] + after[i + 1..n]
  {
    assert after[..i] == after[..i + 1][..i];
    assert after[i] == after[..i + 1][i];
  }

  lemma NumberBytes(s: Rx)
    ensures var (r, ok) := ReadNumber(s);
      && IsSuffix(Bytes(r.line), Bytes(s.line))
      && (ok ==> Bytes(s.line) == [r.blk, r.cblk] + Bytes(r.line))
  {
    hide Getc, Bytes;
    GetcBytes(s.line);
    if Getc(s.line).Got? {
      GetcBytes(Getc(s.line).rest);
    }
  }

  lemma ChecksumBytes(s: Rx)
    ensures var (r, ok) := ReadChecksum(s);
      && IsSuffix(Bytes(r.line), Bytes(s.line))
      && (ok ==> Bytes(s.line) == [r.crc1, r.crc2] + Bytes(r.line))
  {
    hide Getc, Bytes;
    GetcBytes(s.line);
    if Getc(s.line).Got? {
      GetcBytes(Getc(s.line).rest);
    }
  }

  /** The bytes that make up the block the receiver holds, after its header byte. */
  function Body(f: Frame): seq<byte> {
    [f.blk, f.cblk] + f.data + [f.crc1, f.crc2]
  }

  lemma ValidateBytes(s: Rx)
    requires 0 <= s.len <= |s.pkt|
    ensures var (r, stat) := Validate(s);
      && IsSuffix(Bytes(r.line), Bytes(s.line))
      && (stat.Ok? ==> r == s && Complementary(s.blk, s.cblk) && GoodChecksum(CurrentFrame(s)))
  {
    hide Bytes, Checksum;
    FlushBytes(s.line);
  }

  lemma BodyAssembled(f: Frame, rest: seq<byte>)
    ensures [f.blk, f.cblk] + (f.data + ([f.crc1, f.crc2] + rest)) == Body(f) + rest
  {
  }

  lemma BlockBytes(s: Rx, c: byte)
    requires |s.pkt| >= BIG && (c == SOH || c == STX)
    ensures var (r, stat) := ReadBlock(s, c);
      && IsSuffix(Bytes(r.line), Bytes(s.line))
      && (stat.Ok? ==>
            && Bytes(s.line) == Body(CurrentFrame(r)) + Bytes(r.line)
            && Sound(CurrentFrame(r)) && CurrentFrame(r).hdr == c)
  {
    hide Bytes, ReadNumber, ReadChecksum, Fill, Validate, GoodChecksum, Complementary, Body;
    var (s1, numbered) := ReadNumber(s);
    NumberBytes(s);
    if numbered {
      var s1' := s1.(len := if c == SOH then SMALL else BIG, bufp := 0);
      var (s2, full) := Fill(s1', 0);
      FillBytes(s1', 0);
      SuffixTrans(Bytes(s2.line), Bytes(s1.line), Bytes(s.line));
      if full {
        var (s3, checked) := ReadChecksum(s2);
        ChecksumBytes(s2);
        SuffixTrans(Bytes(s3.line), Bytes(s2.line), Bytes(s.line));
        if checked {
          ValidateBytes(s3);
          SuffixTrans(Bytes(Validate(s3).0.line), Bytes(s3.line), Bytes(s.line));
          assert s2.pkt[0..s2.len] == s2.pkt[..s2.len];
          BodyAssembled(CurrentFrame(s3), Bytes(s3.line));
        }
      }
    }
  }

  lemma FrameBytes(line: Line, s: Rx, c: byte)
    requires |s.pkt| >= BIG && (c == SOH || c == STX)
    requires IsSuffix(Bytes(s.line), Bytes(line)) && IsSuffix([c] + Bytes(s.line), Bytes(line))
    ensures var (r, stat) := ReadBlock(s, c);
      && IsSuffix(Bytes(r.line), Bytes(line))
      && (stat.Ok? ==> Sound(CurrentFrame(r)) && IsSuffix(Wire(CurrentFrame(r)) + Bytes(r.line), Bytes(line)))
      && !stat.Eof?
  {
    hide Bytes, Sound, IsSuffix, Wire, Body, CurrentFrame, ReadNumber, ReadChecksum, Fill;
    BlockBytes(s, c);
    var (r, stat) := ReadBlock(s, c);
    SuffixTrans(Bytes(r.line), Bytes(s.line), Bytes(line));
    if stat.Ok? {
      WireIsHeaderAndBody(CurrentFrame(r), Bytes(r.line));
    }
  }

  lemma WireIsHeaderAndBody(f: Frame, rest: seq<byte>)
    ensures [f.hdr] + (Body(f) + rest) == Wire(f) + rest
  {
    assert [f.hdr] + Body(f) == Wire(f);
  }

  /** The trace after a header attempt that owes an acknowledgement or meets the end of file. */
  function HeaderTrace(t: seq<Action>, owing: bool, eof: bool): seq<Action> {
    var u := if owing then t + [Put(ACK)] else t;
    if eof then u + [Put(ACK)] else u
  }

  lemma HeaderActions(s: Rx)
    requires |s.pkt| >= BIG
    ensures var (r, stat) := GetHdr(s);
      && !r.txAck && r.nextBlk == s.nextBlk
      && r.trace == HeaderTrace(s.trace, s.txAck, stat.Eof?)
  {
    hide Hunt, ReadBlock;
    var h := Hunt(s.line, 0, 0);
    if h.Header? {
      BlockNeverEnds(SendDeferredAck(s).(line := h.rest), h.c);
    }
  }

  lemma BlockNeverEnds(s: Rx, c: byte)
    requires |s.pkt| >= BIG
    ensures !ReadBlock(s, c).1.Eof?
  {
    hide ReadNumber, Fill, ReadChecksum, Checksum, Flush;
  }

  lemma HeaderMissed(s: Rx)
    requires |s.pkt| >= BIG && !Hunt(s.line, 0, 0).Header?
    ensures var (r, stat) := GetHdr(s);
      r.line == Hunt(s.line, 0, 0).rest && !stat.Ok?
  {
    hide Hunt;
  }

  lemma HeaderFound(s: Rx)
    requires |s.pkt| >= BIG && Hunt(s.line, 0, 0).Header?
    ensures var h := Hunt(s.line, 0, 0);
      GetHdr(s) == ReadBlock(SendDeferredAck(s).(line := h.rest), h.c)
  {
    hide Hunt, ReadBlock;
  }

  lemma HeaderBytes(s: Rx)
    requires |s.pkt| >= BIG
    ensures var (r, stat) := GetHdr(s);
      && IsSuffix(Bytes(r.line), Bytes(s.line))
      && (stat.Ok? ==> Sound(CurrentFrame(r)) && IsSuffix(Wire(CurrentFrame(r)) + Bytes(r.line), Bytes(s.line)))
  {
    hide GetHdr, Bytes, Hunt, ReadBlock, Sound, IsSuffix, Wire, CurrentFrame, SendDeferredAck;
    var h := Hunt(s.line, 0, 0);
    HuntBytes(s.line, 0, 0);
    if h.Header? {
      HeaderFound(s);
      FrameBytes(s.line, SendDeferredAck(s).(line := h.rest), h.c);
    } else {
      HeaderMissed(s);
    }
  }

  // ----- The invariant -----

  /** What holds at every point of a run on a line whose bytes were `input`. */
  ghost predicate Invariant(input: seq<byte>, s: Rx) {
    && |s.pkt| >= BIG
    && IsSuffix(Bytes(s.line), input)
    && Carved(input[..|input| - |Bytes(s.line)|], Accepted(s.trace))
    && AllSound(Accepted(s.trace))
    && Numbered(Accepted(s.trace))
    && HasNumber(s.nextBlk, |Accepted(s.trace)|)
    && Acks(s.trace) + One(s.txAck) == |Accepted(s.trace)| + Duplicates(s.trace) + 2 * One(s.atEof)
    && PutsWhenDrained(s.trace)
    && OverrunsLong(s.trace)
  }

  predicate Drained(s: Rx) { Given(s.trace) == Owed(s.trace) }

  /** The receiver holds exactly what it still owes. */
  predicate Holding(s: Rx)
    requires Readable(s)
  {
    Given(s.trace) + Pending(s) == Owed(s.trace)
  }

  /** The part of the invariant that speaks of the trace, with `acks` acknowledgements pending. */
  ghost predicate TraceInvariant(t: seq<Action>, nextBlk: byte, acks: int) {
    && AllSound(Accepted(t)) && Numbered(Accepted(t))
    && HasNumber(nextBlk, |Accepted(t)|)
    && Acks(t) + acks == |Accepted(t)| + Duplicates(t)
    && PutsWhenDrained(t) && OverrunsLong(t)
  }

  /** Appending an action that accepts, hands over and gives up nothing. */
  lemma QuietAction(t: seq<Action>, a: Action, nextBlk: byte, acks: int)
    requires TraceInvariant(t, nextBlk, acks) && Given(t) == Owed(t)
    requires a.Try? || a.Put? || a.Duplicate?
    ensures var acks' := acks - One(a == Put(ACK)) + One(a.Duplicate?);
      TraceInvariant(t + [a], nextBlk, acks') && Given(t + [a]) == Owed(t + [a])
    ensures Accepted(t + [a]) == Accepted(t) && Given(t + [a]) == Given(t)
  {
    Snoc(t, a);
    SnocOrder(t, a);
    assert Accepted(t) + [] == Accepted(t);
  }

  /** The trace of a header attempt. */
  lemma AttemptTrace(s: Rx, stat: Stat)
    requires TraceInvariant(s.trace, s.nextBlk, One(s.txAck)) && Drained(s)
    ensures var t := HeaderTrace(s.trace + [Try], s.txAck, stat.Eof?);
      && TraceInvariant(t, s.nextBlk, 0 - One(stat.Eof?))
      && Given(t) == Owed(t) == Given(s.trace) && Accepted(t) == Accepted(s.trace)
  {
    hide TraceInvariant;
    var t0 := s.trace + [Try];
    QuietAction(s.trace, Try, s.nextBlk, One(s.txAck));
    var t1 := HeaderTrace(t0, s.txAck, false);
    if s.txAck {
      QuietAction(t0, Put(ACK), s.nextBlk, 1);
    }
    if stat.Eof? {
      QuietAction(t1, Put(ACK), s.nextBlk, 0);
    }
  }

  lemma FramesSnoc(frames: seq<Frame>, f: Frame)
    requires AllSound(frames) && Numbered(frames)
    requires Sound(f) && HasNumber(f.blk, |frames|)
    ensures AllSound(frames + [f]) && Numbered(frames + [f])
  {
    hide Sound, HasNumber;
  }

  lemma AcceptTrace(t: seq<Action>, f: Frame, nextBlk: byte)
    requires TraceInvariant(t, nextBlk, 0) && Given(t) == Owed(t)
    requires Sound(f) && f.blk == nextBlk
    ensures var u := t + [Accept(f)];
      TraceInvariant(u, nextBlk + 1, 1) && Given(u) + Stripped(f.data) == Owed(u)
    ensures Accepted(t + [Accept(f)]) == Accepted(t) + [f] && Given(t + [Accept(f)]) == Given(t)
  {
    hide Sound, Stripped, PutsWhenDrained, OverrunsLong, AllSound, Numbered, HasNumber;
    Snoc(t, Accept(f));
    SnocOrder(t, Accept(f));
    FramesSnoc(Accepted(t), f);
    NumberAfter(nextBlk, |Accepted(t)|);
    assert Given(t) + [] == Given(t);
  }

  /** The end of a carving moves with the line. */
  lemma CarvedRest(input: seq<byte>, frames: seq<Frame>, before: seq<byte>, after: seq<byte>)
    requires IsSuffix(before, input) && IsSuffix(after, before)
    requires Carved(input[..|input| - |before|], frames)
    ensures IsSuffix(after, input) && Carved(input[..|input| - |after|], frames)
  {
    SuffixTrans(after, before, input);
    var done := input[..|input| - |before|];
    var more := before[..|before| - |after|];
    assert input == done + before;
    assert input[..|input| - |after|] == done + more;
    CarvedLonger(done, more, frames);
  }

  lemma CarvedFrame(input: seq<byte>, frames: seq<Frame>, before: seq<byte>, after: seq<byte>, f: Frame)
    requires IsSuffix(before, input) && IsSuffix(Wire(f) + after, before)
    requires Carved(input[..|input| - |before|], frames)
    ensures IsSuffix(after, input) && Carved(input[..|input| - |after|], frames + [f])
  {
    var w := Wire(f);
    assert IsSuffix(after, w + after);
    SuffixTrans(after, w + after, before);
    SuffixTrans(after, before, input);
    var done := input[..|input| - |before|];
    var junk := before[..|before| - |w + after|];
    assert before == junk + (w + after);
    assert input == done + before;
    assert input[..|input| - |after|] == done + junk + w;
    CarvedSnoc(done, junk, frames, f);
  }

  lemma ReactToNew(s: Rx)
    requires TraceInvariant(s.trace, s.nextBlk, 0) && Drained(s)
    requires 0 <= s.len <= |s.pkt| && Sound(CurrentFrame(s)) && s.blk == s.nextBlk
    ensures var r := AcceptBlock(s);
      && TraceInvariant(r.trace, r.nextBlk, 1) && r.txAck
      && Given(r.trace) == Given(s.trace)
      && Accepted(r.trace) == Accepted(s.trace) + [CurrentFrame(s)]
      && Given(r.trace) + r.pkt[..r.len] == Owed(r.trace)
  {
    hide TraceInvariant, Given, Owed, Accepted, Sound, Stripped;
    var f := CurrentFrame(s);
    AcceptTrace(s.trace, f, s.nextBlk);
    assert s.pkt[..|Stripped(f.data)|] == Stripped(f.data);
  }

  lemma ReactToKnown(s: Rx)
    requires TraceInvariant(s.trace, s.nextBlk, 0) && Drained(s)
    ensures var r := Putc(s.(trace := s.trace + [Duplicate]), ACK);
      && r.txAck == s.txAck && r.nextBlk == s.nextBlk
      && TraceInvariant(r.trace, s.nextBlk, 0)
      && Given(r.trace) == Given(s.trace)
      && Accepted(r.trace) == Accepted(s.trace) && Drained(r)
  {
    hide TraceInvariant, Given, Owed, Accepted;
    QuietAction(s.trace, Duplicate, s.nextBlk, 0);
    QuietAction(s.trace + [Duplicate], Put(ACK), s.nextBlk, 1);
  }

  lemma ReactToOther(s: Rx, b: byte, acks: int)
    requires TraceInvariant(s.trace, s.nextBlk, acks) && Drained(s)
    ensures var r := Putc(s, b);
      && r.txAck == s.txAck && r.nextBlk == s.nextBlk
      && TraceInvariant(r.trace, s.nextBlk, acks - One(b == ACK))
      && Given(r.trace) == Given(s.trace)
      && Accepted(r.trace) == Accepted(s.trace) && Drained(r)
  {
    hide TraceInvariant, Given, Owed, Accepted;
    QuietAction(s.trace, Put(b), s.nextBlk, acks);
  }

  /** The reaction to a header attempt, from a drained state whose trace is in order. */
  lemma ReactKeeps(s: Rx, stat: Stat)
    requires TraceInvariant(s.trace, s.nextBlk, 0 - One(stat.Eof?)) && Drained(s) && !s.txAck
    requires stat.Ok? ==> 0 <= s.len <= |s.pkt| && Sound(CurrentFrame(s))
    ensures var (r, stat', step) := React(s, stat);
      && TraceInvariant(r.trace, r.nextBlk, One(r.txAck) - 2 * One(stat.Eof?))
      && Given(r.trace) == Given(s.trace)
      && (if stat'.Ok? && step.Stop? then
            && Accepted(r.trace) == Accepted(s.trace) + [CurrentFrame(s)]
            && Given(r.trace) + r.pkt[..r.len] == Owed(r.trace)
          else Accepted(r.trace) == Accepted(s.trace) && Drained(r))
  {
    hide TraceInvariant, Given, Owed, Accepted, Sound, CurrentFrame, AcceptBlock, Putc;
    if stat.Ok? && s.blk == s.nextBlk {
      ReactToNew(s);
    } else if stat.Ok? && IsPrevious(s.blk, s.nextBlk) {
      ReactToKnown(s);
    } else if stat.Cancel? {
    } else if stat.Eof? {
      ReactToOther(s, ACK, 0 - 1);
    } else {
      ReactToOther(s, POLL, 0);
    }
  }

  lemma ReactStatus(s: Rx, stat: Stat)
    requires stat.Ok? ==> 0 <= s.len <= |s.pkt|
    ensures var (r, stat', step) := React(s, stat);
      && stat'.Eof? == stat.Eof?
      && (stat'.Ok? && step.Again? ==> r.len == s.len)
  {
  }

  /** One attempt of the retry loop keeps the invariant; it leaves the receiver drained unless it
      accepts a block, which it then holds in full. */
  lemma AttemptKeeps(input: seq<byte>, s: Rx)
    requires Invariant(input, s) && Drained(s) && !s.atEof
    ensures var (r, stat, step) := Attempt(s);
      && Invariant(input, r)
      && (stat.Ok? && step.Stop? ==> Given(r.trace) + r.pkt[..r.len] == Owed(r.trace))
      && (!stat.Ok? || step.Again? ==> Drained(r))
      && (stat.Ok? && step.Again? ==> SMALL <= r.len <= |r.pkt|)
      && Given(r.trace) == Given(s.trace)
  {
    hide Bytes, Carved, GetHdr, PutsWhenDrained, OverrunsLong, React, Sound, AllSound, Numbered, HasNumber;
    var s0 := s.(trace := s.trace + [Try]);
    var (s1, stat) := GetHdr(s0);
    HeaderActions(s0);
    HeaderBytes(s0);
    AttemptTrace(s, stat);
    CarvedRest(input, Accepted(s.trace), Bytes(s.line), Bytes(s1.line));
    if stat.Ok? {
      CarvedFrame(input, Accepted(s.trace), Bytes(s.line), Bytes(s1.line), CurrentFrame(s1));
    }
    ReactKeeps(s1, stat);
    ReactStatus(s1, stat);
  }

  lemma OverrunKeeps(input: seq<byte>, s: Rx)
    requires Invariant(input, s) && Drained(s)
    requires SMALL <= s.len <= |s.pkt|
    ensures var r := GiveUp(s, Ok).0;
      && Invariant(input, r) && Given(r.trace) + r.pkt[..r.len] == Owed(r.trace)
      && Given(r.trace) == Given(s.trace) && GiveUp(s, Ok).1.Ok?
  {
    var a := Overrun(s.pkt[..s.len]);
    Snoc(s.trace, a);
    SnocOrder(s.trace, a);
    assert Accepted(s.trace) + [] == Accepted(s.trace);
    assert Given(s.trace) + [] == Given(s.trace);
  }

  lemma {:induction false} FetchKeeps(input: seq<byte>, s: Rx, retries: nat)
    requires Invariant(input, s) && Drained(s) && !s.atEof && retries > 0
    ensures var (r, stat) := Fetch(s, retries);
      && Invariant(input, r)
      && (stat.Ok? ==> Given(r.trace) + r.pkt[..r.len] == Owed(r.trace))
      && (!stat.Ok? ==> Drained(r))
      && Given(r.trace) == Given(s.trace)
    decreases retries
  {
    hide Attempt, Invariant, GiveUp;
    InvariantPacket(input, s);
    var (s1, stat, step) := Attempt(s);
    AttemptKeeps(input, s);
    if step.Again? {
      if retries == 1 {
        if stat.Ok? {
          OverrunKeeps(input, s1);
        } else {
          GiveUpUnlessOk(s1, stat);
        }
      } else {
        InvariantPacket(input, s1);
        AgainNotEof(s);
        FetchKeeps(input, s1, retries - 1);
      }
    }
  }

  lemma GiveUpUnlessOk(s: Rx, stat: Stat)
    requires !stat.Ok?
    ensures GiveUp(s, stat) == (s, stat)
  {
  }

  lemma InvariantPacket(input: seq<byte>, s: Rx)
    requires Invariant(input, s)
    ensures |s.pkt| >= BIG
  {
  }

  lemma AgainNotEof(s: Rx)
    requires |s.pkt| >= BIG && Attempt(s).2.Again?
    ensures !Attempt(s).1.Eof?
  {
  }

  lemma CopyKeeps(input: seq<byte>, s: Rx, n: nat)
    requires Invariant(input, s) && Readable(s) && !s.atEof && n <= s.len && Holding(s)
    ensures Invariant(input, Copy(s, n)) && Holding(Copy(s, n))
    ensures Given(Copy(s, n).trace) == Given(s.trace) + s.pkt[s.bufp..s.bufp + n]
  {
    hide Given, Accepted, Owed, Acks, Duplicates, Carved, Bytes, PutsWhenDrained, OverrunsLong, AllSound, Numbered,
      HasNumber, Gives, Pending;
    var d := s.pkt[s.bufp..s.bufp + n];
    SnocGives(s.trace, d);
    PendingSplit(s, n);
    GivenPending(Given(s.trace), d, Pending(Copy(s, n)));
  }

  lemma GivenPending(given: seq<byte>, d: seq<byte>, rest: seq<byte>)
    ensures given + d + rest == given + (d + rest)
  {
  }

  lemma PendingSplit(s: Rx, n: nat)
    requires Readable(s) && !s.atEof && n <= s.len
    ensures s.pkt[s.bufp..s.bufp + n] + Pending(Copy(s, n)) == Pending(s)
  {
    SliceOfSlice(s.pkt, s.bufp, s.len, n);
  }

  lemma FetchBlockKeeps(input: seq<byte>, s: Rx)
    requires Invariant(input, s) && Drained(s) && !s.atEof
    ensures var (r, stat) := FetchBlock(s);
      && Invariant(input, r)
      && (stat.Ok? ==> Readable(r) && !r.atEof && Holding(r))
      && (!stat.Ok? ==> Drained(r))
      && Given(r.trace) == Given(s.trace)
  {
    hide Fetch, Invariant, Given, Owed;
    InvariantPacket(input, s);
    FetchKeeps(input, s, MAX_RETRIES);
    var (r, stat) := Fetch(s, MAX_RETRIES);
    InvariantAnyLen(input, r, -1);
    if stat.Ok? {
      InvariantPacket(input, r);
      assert r.pkt[..r.len] == Pending(r);
    }
  }

  lemma InvariantAnyLen(input: seq<byte>, s: Rx, len: int)
    requires Invariant(input, s)
    ensures Invariant(input, s.(len := len))
  {
  }

  lemma RefillKeeps(input: seq<byte>, s: Rx)
    requires Invariant(input, s) && Readable(s) && Holding(s) && !s.atEof
    ensures var (r, stat) := Refill(s);
      && Invariant(input, r)
      && (stat.Ok? ==> Holding(r))
      && (!stat.Ok? ==> Drained(r))
      && Given(r.trace) == Given(s.trace)
  {
    hide FetchBlock, Invariant;
    if s.len == 0 {
      assert Given(s.trace) + [] == Given(s.trace);
      FetchBlockKeeps(input, s);
    }
  }

  /** A read that began when `given` had been handed over: the invariant holds after it, the state
      is what the next read needs unless it failed, and what it returns is what the trace says. */
  ghost predicate GoodOutcome(input: seq<byte>, given: seq<byte>, r: Outcome) {
    && Invariant(input, r.s)
    && (if Readable(r.s) then Holding(r.s) else Drained(r.s))
    && Given(r.s.trace) == given + r.data
  }

  lemma OutcomeNow(input: seq<byte>, s: Rx, err: Option<Stat>)
    requires Invariant(input, s) && (if Readable(s) then Holding(s) else Drained(s))
    ensures GoodOutcome(input, Given(s.trace), Outcome(s, [], err))
  {
    assert Given(s.trace) + [] == Given(s.trace);
  }

  lemma OutcomeAfter(input: seq<byte>, given: seq<byte>, d: seq<byte>, r: Outcome)
    requires GoodOutcome(input, given + d, r)
    ensures GoodOutcome(input, given, r.After(d))
  {
    assert given + d + r.data == given + (d + r.data);
  }

  lemma HoldingAtEnd(s: Rx)
    requires Drained(s) && s.len == -1
    ensures if Readable(s) then Holding(s) else Drained(s)
  {
    assert Given(s.trace) + [] == Given(s.trace);
  }

  lemma {:induction false} ReadKeeps(input: seq<byte>, s: Rx, size: int)
    requires Invariant(input, s) && Readable(s) && Holding(s)
    ensures GoodOutcome(input, Given(s.trace), Read(s, size))
    decreases |s.line|, size
  {
    hide Refill, Invariant, Read, Given, Owed, Copy, GoodOutcome, Holding, Drained;
    if s.atEof || size <= 0 {
      ReadDone(s, size);
      OutcomeNow(input, s, None);
    } else {
      ReadStep(s, size);
      RefillKeeps(input, s);
      var (s1, stat) := Refill(s);
      if stat == Ok {
        var n := Min(size, s1.len);
        CopyKeeps(input, s1, n);
        ReadKeeps(input, Copy(s1, n), size - n);
        OutcomeAfter(input, Given(s.trace), s1.pkt[s1.bufp..s1.bufp + n], Read(Copy(s1, n), size - n));
      } else {
        HoldingAtEnd(s1);
        OutcomeNow(input, s1, Some(stat));
      }
    }
  }
}
