/** The imperative receiver of demo-dh/drivers/xyzmodem.c: the static `xyz` structure with its
    packet buffer, and the routines that update them in place.  Every routine is proved to
    change the state exactly as the corresponding function in `Xmodem` says.  */
module XmodemReceiver {
  import opened Crc
  import opened Line
  import opened Util
  import opened Xmodem

  class Receiver {
    var line: Line           // the terminal, as events still to come
    var ttyInitialized: bool // there is one
    const pkt: array<byte>   // the shared command buffer
    var bufp: int            // offset of the next byte to hand over
    var blk: byte
    var cblk: byte
    var crc1: byte
    var crc2: byte
    var nextBlk: byte
    var len: int
    var atEof: bool
    var txAck: bool
    ghost var trace: seq<Action>

    ghost function State(): Rx
      reads this, pkt
    {
      Rx(line, pkt[..], bufp, blk, cblk, crc1, crc2, nextBlk, len, atEof, txAck, trace)
    }

    /** The static structure before `xyzModem_init`, with the buffer that opening assigns. */
    constructor (buffer: array<byte>)
      requires buffer.Length >= BIG
      ensures pkt == buffer && !ttyInitialized
      ensures State() == Rx([], buffer[..], 0, 0, 0, 0, 0, 0, 0, false, false, [])
    {
      pkt, ttyInitialized, line, trace := buffer, false, [], [];
      bufp, blk, cblk, crc1, crc2, nextBlk := 0, 0, 0, 0, 0, 0;
      len, atEof, txAck := 0, false, false;
    }

    /** `xyzModem_init`. */
    method Init(terminal: Line)
      modifies this`line, this`ttyInitialized
      ensures ttyInitialized && State() == old(State()).(line := terminal)
    {
      line := terminal;
      ttyInitialized := true;
    }

    /** `xyzModem_stream_open`: refused, with nothing changed or transmitted, exactly if there is no
        terminal. */
    method StreamOpen() returns (r: int)
      requires pkt.Length >= BIG
      modifies this`bufp, this`len, this`atEof, this`txAck, this`nextBlk, this`trace
      ensures r == (if ttyInitialized then 0 else -1)
      ensures !ttyInitialized ==> State() == old(State())
      ensures ttyInitialized ==> State() == Open(old(State())) && Readable(State())
    {
      if !ttyInitialized {
        return -1;
      }
      bufp, len, atEof, txAck := 0, 0, false, false;
      trace := [];
      PutByte(POLL);
      assert trace == [Put(POLL)];
      nextBlk := 1;
      r := 0;
    }

    method GetcTimeout() returns (got: bool, c: byte)
      modifies this`line
      ensures got == Getc(old(line)).Got?
      ensures line == Getc(old(line)).rest
      ensures got ==> c == Getc(old(line)).b
    {
      var counter := 0;
      while !Ready(line) && counter < CHAR_TIMEOUT
        invariant 0 <= counter <= CHAR_TIMEOUT
        invariant Await(line, counter) == Await(old(line), 0)
        decreases CHAR_TIMEOUT - counter
      {
        line := Pass(line);
        counter := counter + 1;
      }
      got, c := false, 0;
      if Ready(line) {
        c := line[0].b;
        line := line[1..];
        got := true;
      }
    }

    method FlushLine()
      modifies this`line
      ensures line == Flush(old(line))
    {
      while Ready(line)
        invariant Flush(line) == Flush(old(line))
        decreases |line|
      {
        line := line[1..];
      }
    }

    /** `xyz_putc` and the trace of it. */
    method PutByte(b: byte)
      modifies this`trace
      ensures trace == old(trace) + [Put(b)]
    {
      trace := trace + [Put(b)];
    }

    /** The search loop at the start of `xyzModem_get_hdr`. */
    method FindHeader() returns (stat: Stat, c: byte)
      modifies this`line, this`trace
      ensures var h := Hunt(old(line), 0, 0);
        && line == h.rest
        && trace == (if h.Ended? then old(trace) + [Put(ACK)] else old(trace))
        && (match h
            case Header(c', _) => stat == Ok && c == c'
            case Quiet(_) => stat == Timeout
            case Cancelled(_) => stat == Cancel
            case Ended(_) => stat == Eof)
    {
      var canTotal, hdrChars := 0, 0;
      var found, got := false, false;
      c := 0;
      ghost var before := line;
      while !found
        invariant 0 <= canTotal < CAN_COUNT && 0 <= hdrChars
        invariant trace == old(trace)
        invariant Hunt(before, 0, 0) == if found then Header(c, line) else Hunt(line, canTotal, hdrChars)
        decreases |line|, !found
      {
        got, c := GetcTimeout();
        if got {
          hdrChars := hdrChars + 1;
          if c == SOH || c == STX {
            found := true;
          } else if c == CAN {
            canTotal := canTotal + 1;
            if canTotal == CAN_COUNT {
              return Cancel, c;
            }
          } else if c == EOT && hdrChars == 1 {
            PutByte(ACK);
            return Eof, c;
          }
        } else {
          FlushLine();
          line := Elapse(line, EXIT_TIMEOUT / POLL_INTERVAL);
          return Timeout, c;
        }
      }
      stat := Ok;
    }

    /** The loop that reads the data bytes. */
    method FillPacket() returns (full: bool)
      requires 0 <= len <= pkt.Length
      modifies this`line, pkt
      ensures (State(), full) == Fill(old(State()), 0)
    {
      var i := 0;
      while i < len
        invariant 0 <= i <= len <= pkt.Length
        invariant Fill(State(), i) == Fill(old(State()), 0)
      {
        var got, c := GetcTimeout();
        if got {
          pkt[i] := c;
        } else {
          return false;
        }
        i := i + 1;
      }
      full := true;
    }

    method GetHdrBlock() returns (stat: Stat)
      requires pkt.Length >= BIG
      modifies this, pkt
      ensures ttyInitialized == old(ttyInitialized)
      ensures (State(), stat) == GetHdr(old(State()))
    {
      if txAck {
        PutByte(ACK);
        txAck := false;
      }
      assert State() == SendDeferredAck(old(State()));
      var c;
      stat, c := FindHeader();
      if stat != Ok {
        return;
      }
      stat := ReadBody(c);
    }

    method GetNumber() returns (ok: bool)
      modifies this`line, this`blk, this`cblk
      ensures (State(), ok) == ReadNumber(old(State()))
    {
      var got, b := GetcTimeout();
      if !got {
        return false;
      }
      blk := b;
      got, b := GetcTimeout();
      if !got {
        return false;
      }
      cblk := b;
      ok := true;
    }

    method GetChecksum() returns (ok: bool)
      modifies this`line, this`crc1, this`crc2
      ensures (State(), ok) == ReadChecksum(old(State()))
    {
      var got, b := GetcTimeout();
      if !got {
        return false;
      }
      crc1 := b;
      got, b := GetcTimeout();
      if !got {
        return false;
      }
      crc2 := b;
      ok := true;
    }

    method CheckBlock() returns (stat: Stat)
      requires 0 <= len <= pkt.Length
      modifies this`line
      ensures (State(), stat) == Validate(old(State()))
    {
      if !Complementary(blk, cblk) {
        FlushLine();
        return BadFrame;
      }
      var cksum := Crc16(pkt, len);
      assert pkt[..][..len] == pkt[..len];
      if cksum != Join(crc1, crc2) {
        return BadChecksum;
      }
      stat := Ok;
    }

    method ReadBody(c: byte) returns (stat: Stat)
      requires pkt.Length >= BIG
      modifies this, pkt
      ensures ttyInitialized == old(ttyInitialized)
      ensures (State(), stat) == ReadBlock(old(State()), c)
    {
      hide ReadNumber, Fill, ReadChecksum, Validate;
      var ok := GetNumber();
      if !ok {
        return Timeout;
      }
      len := if c == SOH then SMALL else BIG;
      bufp := 0;
      ok := FillPacket();
      if !ok {
        return Timeout;
      }
      ok := GetChecksum();
      if !ok {
        return Timeout;
      }
      stat := CheckBlock();
    }

    /** Pad removal: shorten the block in place. */
    method RemovePads()
      requires 0 <= len <= pkt.Length && bufp == 0
      modifies this`len
      ensures 0 <= len <= old(len)
      ensures len == |Stripped(pkt[..old(len)])|
    {
      if len >= 3 && pkt[bufp + len - 1] == PAD && pkt[bufp + len - 2] == PAD && pkt[bufp + len - 3] == PAD {
        while len > 0 && pkt[bufp + len - 1] == PAD
          invariant 0 <= len <= old(len)
          invariant DropPads(pkt[..len]) == DropPads(pkt[..old(len)])
        {
          assert pkt[..len][..len - 1] == pkt[..len - 1];
          len := len - 1;
        }
      }
    }

    /** The body of the retry loop. */
    method TryBlock() returns (stat: Stat, again: bool)
      requires pkt.Length >= BIG
      modifies this, pkt
      ensures ttyInitialized == old(ttyInitialized)
      ensures (State(), stat, if again then Again else Stop) == Attempt(old(State()))
    {
      trace := trace + [Try];
      hide GetHdr, React;
      stat := GetHdrBlock();
      stat, again := Respond(stat);
    }

    method TakeBlock()
      requires 0 <= len <= pkt.Length && bufp == 0
      modifies this`txAck, this`nextBlk, this`trace, this`len
      ensures State() == AcceptBlock(old(State()))
    {
      ghost var s := State();
      txAck := true;
      nextBlk := nextBlk + 1;
      trace := trace + [Accept(CurrentFrame(s))];
      assert pkt[..len] == s.pkt[..s.len];
      RemovePads();
    }

    /** Its reaction to the status of the header attempt. */
    method Respond(hdr: Stat) returns (stat: Stat, again: bool)
      requires hdr == Ok ==> 0 <= len <= pkt.Length && bufp == 0
      modifies this`txAck, this`nextBlk, this`trace, this`len, this`atEof
      ensures (State(), stat, if again then Again else Stop) == React(old(State()), hdr)
    {
      hide AcceptBlock;
      stat := hdr;
      if stat == Ok {
        var settled;
        stat, settled, again := RespondToBlock();
        if settled {
          return;
        }
      }
      if stat == Cancel {
        return stat, false;
      }
      if stat == Eof {
        trace, atEof := trace + [Put(ACK)], true;
        return stat, false;
      }
      PutByte(POLL);
      again := true;
    }

    /** A sound block: the expected one, the previous one again, or neither. */
    method RespondToBlock() returns (stat: Stat, settled: bool, again: bool)
      requires 0 <= len <= pkt.Length && bufp == 0
      modifies this`txAck, this`nextBlk, this`trace, this`len
      ensures var s := old(State());
        if s.blk == s.nextBlk then
          stat == Ok && settled && !again && State() == AcceptBlock(s)
        else if IsPrevious(s.blk, s.nextBlk) then
          stat == Ok && settled && again && State() == Putc(s.(trace := s.trace + [Duplicate]), ACK)
        else
          stat == BadSequence && !settled && State() == s
    {
      hide AcceptBlock, IsPrevious;
      stat, settled, again := Ok, true, false;
      if blk == nextBlk {
        TakeBlock();
      } else if IsPrevious(blk, nextBlk) {
        trace, again := trace + [Duplicate] + [Put(ACK)], true;
      } else {
        stat, settled := BadSequence, false;
      }
    }

    /** The retry loop. */
    method RetryLoop() returns (stat: Stat)
      requires pkt.Length >= BIG
      modifies this, pkt
      ensures ttyInitialized == old(ttyInitialized)
      ensures (State(), stat) == Fetch(old(State()), MAX_RETRIES)
    {
      hide Fetch;
      var retries := MAX_RETRIES;
      ghost var result := Fetch(State(), MAX_RETRIES);
      stat := Cancel;
      while retries > 0
        invariant ttyInitialized == old(ttyInitialized)
        invariant 0 <= retries <= MAX_RETRIES
        invariant retries > 0 ==> Fetch(State(), retries) == result
        invariant retries == 0 ==> (stat == Ok ==> 0 <= len <= pkt.Length) && GiveUp(State(), stat) == result
      {
        var again;
        stat, again := TryOnce(retries);
        retries := retries - 1;
        if !again {
          return;
        }
      }
      if stat == Ok {
        assert pkt[..][..len] == pkt[..len];
        trace := trace + [Overrun(pkt[..len])];
      }
    }

    /** One attempt, seen from the loop that still has `retries` of them. */
    method TryOnce(ghost retries: nat) returns (stat: Stat, again: bool)
      requires pkt.Length >= BIG && retries > 0
      modifies this, pkt
      ensures ttyInitialized == old(ttyInitialized)
      ensures again && stat == Ok ==> 0 <= len <= pkt.Length
      ensures var result := Fetch(old(State()), retries);
        if !again then (State(), stat) == result
        else if retries == 1 then GiveUp(State(), stat) == result
        else Fetch(State(), retries - 1) == result
    {
      stat, again := TryBlock();
    }

    /** The retry loop and the error exit after it. */
    method NextBlock() returns (stat: Stat)
      requires pkt.Length >= BIG
      modifies this, pkt
      ensures ttyInitialized == old(ttyInitialized)
      ensures (State(), stat) == FetchBlock(old(State()))
    {
      stat := RetryLoop();
      if stat != Ok {
        len := -1;
      }
    }

    /** `xyzModem_stream_read` into `buf`. */
    method StreamRead(buf: array<byte>, size: int) returns (total: nat, err: Option<Stat>)
      requires Readable(State())
      requires buf != pkt && size <= buf.Length
      modifies this, pkt, buf
      ensures ttyInitialized == old(ttyInitialized)
      ensures var r := Read(old(State()), size);
        && State() == r.s && err == r.err
        && total == |r.data| <= buf.Length && buf[..total] == r.data && buf[total..] == old(buf[total..])
    {
      hide Read;
      total, err := 0, None;
      var left := size;
      ghost var result := Read(State(), size);
      while !atEof && left > 0
        invariant ttyInitialized == old(ttyInitialized)
        invariant Readable(State())
        invariant err == None
        invariant total <= buf.Length && (left == size - total || (total == 0 && left == size))
        invariant buf[total..] == old(buf[total..])
        invariant Read(State(), left).After(buf[..total]) == result
        decreases |line|, left
      {
        ghost var done := buf[..total];
        var total';
        total', left, err := ReadSome(buf, total, left);
        if err.Some? {
          assert done + [] == done;
          return;
        }
        assert buf[..total'] == done + buf[total..total'];
        total := total';
      }
      ReadDone(State(), left);
      assert buf[..total] + [] == buf[..total];
    }

    /** One pass of the loop in `xyzModem_stream_read`. */
    method ReadSome(buf: array<byte>, total: nat, left: int) returns (total': nat, left': int, err: Option<Stat>)
      requires Readable(State()) && !atEof && left > 0
      requires buf != pkt && total + left <= buf.Length
      modifies this, pkt, buf
      ensures ttyInitialized == old(ttyInitialized)
      ensures total <= total' <= buf.Length && left' == left - (total' - total)
      ensures buf[..total] == old(buf[..total]) && buf[total'..] == old(buf[total'..])
      ensures var result := Read(old(State()), left);
        if err.Some? then total' == total && Outcome(State(), [], err) == result
        else
          && Readable(State()) && (|line| < old(|line|) || (line == old(line) && left' < left))
          && Read(State(), left').After(buf[total..total']) == result
    {
      hide Refill, Read;
      total', left', err := total, left, None;
      ReadStep(State(), left);
      var stat := EnsureBlock();
      if stat != Ok {
        err := Some(stat);
        return;
      }
      total', left' := CopyOut(buf, total, left);
    }

    /** Fetch a block unless bytes of the last one are still pending. */
    method EnsureBlock() returns (stat: Stat)
      requires Readable(State()) && !atEof
      modifies this, pkt
      ensures ttyInitialized == old(ttyInitialized)
      ensures (State(), stat) == Refill(old(State()))
    {
      hide FetchBlock;
      stat := Ok;
      if len == 0 {
        stat := NextBlock();
      }
    }

    /** Copy what is pending, at most `left` bytes, to `buf` from index `total` on. */
    method CopyOut(buf: array<byte>, total: nat, left: int) returns (total': nat, left': int)
      requires Readable(State()) && !atEof && left > 0
      requires buf != pkt && total + left <= buf.Length
      modifies this`len, this`bufp, this`trace, buf
      ensures var n := Min(left, old(len));
        && State() == Copy(old(State()), n) && total' == total + n && left' == left - n
        && buf[..total] == old(buf[..total]) && buf[total..total'] == old(pkt[bufp..bufp + n])
        && buf[total'..] == old(buf[total'..])
    {
      var n := Min(left, len);
      forall k | 0 <= k < n {
        buf[total + k] := pkt[bufp + k];
      }
      assert buf[total..total + n] == pkt[bufp..bufp + n] == pkt[..][bufp..bufp + n];
      trace := trace + Gives(pkt[bufp..bufp + n]);
      left', total' := left - n, total + n;
      len, bufp := len - n, bufp + n;
    }
  }
}
