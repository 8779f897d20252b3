/** The XMODEM-1k/CRC receiver of demo-dh/drivers/xyzmodem.c as functions on its state.

    Each function takes the whole receiver state to the whole next state; `XmodemReceiver`
    proves the imperative code equal to them.  The state carries a trace of what the receiver
    does, in order, so that statements about whole runs can be made.  */
module Xmodem {
  import opened Crc
  import opened Line
  import opened Util

  const SOH: byte := 0x01
  const STX: byte := 0x02
  const EOT: byte := 0x04
  const ACK: byte := 0x06
  const CAN: byte := 0x18
  const PAD: byte := 0x1A
  const POLL: byte := 0x43 // the letter C: a request for CRC mode

  const MAX_RETRIES: nat := 200
  const CAN_COUNT: nat := 3
  const BIG: nat := 1024
  const SMALL: nat := 128

  datatype Stat = Ok | Timeout | Eof | Cancel | BadFrame | BadChecksum | BadSequence

  /** A block as it travels: header byte, number, complement, data and checksum. */
  datatype Frame = Frame(hdr: byte, blk: byte, cblk: byte, data: seq<byte>, crc1: byte, crc2: byte)

  datatype Action =
    | Try                      // a header attempt starts
    | Put(b: byte)             // a byte is transmitted
    | Accept(frame: Frame)     // the expected block has arrived
    | Duplicate                // the previous block has arrived again
    | Overrun(data: seq<byte>) // the retry budget is used up by a duplicate
    | Give(b: byte)            // a byte is handed to the caller

  datatype Rx = Rx(
    line: Line, pkt: seq<byte>, bufp: int,
    blk: byte, cblk: byte, crc1: byte, crc2: byte,
    nextBlk: byte, len: int, atEof: bool, txAck: bool,
    trace: seq<Action>)

  /** `xyzModem_stream_open` on an initialised terminal.  The read offset is set to 0 here; the
      source leaves it, but nothing reads it while `len` is 0. */
  function Open(s: Rx): Rx {
    Putc(s.(len := 0, bufp := 0, atEof := false, txAck := false, trace := []), POLL).(nextBlk := 1)
  }

  function Putc(s: Rx, b: byte): (r: Rx)
    ensures r.line == s.line && r.pkt == s.pkt
  {
    s.(trace := s.trace + [Put(b)])
  }

  // ----- xyzModem_get_hdr -----

  datatype Hunted = Quiet(rest: Line) | Cancelled(rest: Line) | Ended(rest: Line) | Header(c: byte, rest: Line)

  /** Search for the start of a header after `chars` bytes, `cans` of them CAN. */
  function Hunt(line: Line, cans: nat, chars: nat): (h: Hunted)
    ensures |h.rest| <= |line|
    ensures h.Header? ==> |h.rest| < |line|
    decreases |line|
  {
    match Getc(line)
    case TimedOut(rest) => Quiet(Elapse(Flush(rest), EXIT_TIMEOUT / POLL_INTERVAL))
    case Got(c, rest) =>
      if c == SOH || c == STX then Header(c, rest)
      else if c == CAN then
        if cans + 1 == CAN_COUNT then Cancelled(rest) else Hunt(rest, cans + 1, chars + 1)
      else if c == EOT && chars == 0 then Ended(rest)
      else Hunt(rest, cans, chars + 1)
  }

  /** Read the data bytes from index `i` on; false if the line falls silent. */
  function Fill(s: Rx, i: nat): (r: (Rx, bool))
    requires i <= s.len <= |s.pkt|
    ensures r.0 == s.(line := r.0.line, pkt := r.0.pkt)
    ensures |r.0.pkt| == |s.pkt| && |r.0.line| <= |s.line|
    ensures r.1 ==> |r.0.line| + (s.len - i) <= |s.line|
    decreases s.len - i
  {
    if i == s.len then (s, true)
    else
      match Getc(s.line)
      case TimedOut(rest) => (s.(line := rest), false)
      case Got(c, rest) => Fill(s.(line := rest, pkt := s.pkt[i := c]), i + 1)
  }

  predicate Complementary(blk: byte, cblk: byte) { blk ^ cblk == 0xFF }

  function Validate(s: Rx): (r: (Rx, Stat))
    requires 0 <= s.len <= |s.pkt|
    ensures |r.0.line| <= |s.line|
    ensures r.0 == s.(line := r.0.line)
  {
    if !Complementary(s.blk, s.cblk) then (s.(line := Flush(s.line)), BadFrame)
    else if Checksum(s.pkt[..s.len]) != Join(s.crc1, s.crc2) then (s, BadChecksum)
    else (s, Ok)
  }

  /** Read the block number and its complement. */
  function ReadNumber(s: Rx): (r: (Rx, bool))
    ensures r.0 == s.(line := r.0.line, blk := r.0.blk, cblk := r.0.cblk)
    ensures |r.0.line| <= |s.line|
    ensures r.1 ==> |r.0.line| + 2 <= |s.line|
  {
    match Getc(s.line)
    case TimedOut(rest) => (s.(line := rest), false)
    case Got(blk, rest) =>
      match Getc(rest)
      case TimedOut(rest') => (s.(line := rest', blk := blk), false)
      case Got(cblk, rest') => (s.(line := rest', blk := blk, cblk := cblk), true)
  }

  /** Read the two checksum bytes. */
  function ReadChecksum(s: Rx): (r: (Rx, bool))
    ensures r.0 == s.(line := r.0.line, crc1 := r.0.crc1, crc2 := r.0.crc2)
    ensures |r.0.line| <= |s.line|
    ensures r.1 ==> |r.0.line| + 2 <= |s.line|
  {
    match Getc(s.line)
    case TimedOut(rest) => (s.(line := rest), false)
    case Got(crc1, rest) =>
      match Getc(rest)
      case TimedOut(rest') => (s.(line := rest', crc1 := crc1), false)
      case Got(crc2, rest') => (s.(line := rest', crc1 := crc1, crc2 := crc2), true)
  }

  /** What follows the header byte `c`. */
  function ReadBlock(s: Rx, c: byte): (r: (Rx, Stat))
    requires |s.pkt| >= BIG
    ensures |r.0.line| <= |s.line| && |r.0.pkt| == |s.pkt|
    ensures r.1.Ok? ==> (r.0.len == SMALL || r.0.len == BIG) && r.0.bufp == 0
    ensures r.1.Ok? ==> |r.0.line| + 4 + SMALL <= |s.line|
    ensures r.0.nextBlk == s.nextBlk && r.0.atEof == s.atEof && r.0.txAck == s.txAck
    ensures r.0.trace == s.trace
  {
    var (s1, numbered) := ReadNumber(s);
    if !numbered then (s1, Timeout) else
    var (s2, full) := Fill(s1.(len := if c == SOH then SMALL else BIG, bufp := 0), 0);
    if !full then (s2, Timeout) else
    var (s3, checked) := ReadChecksum(s2);
    if !checked then (s3, Timeout) else Validate(s3)
  }

  /** The acknowledgement of the last block is sent only now. */
  function SendDeferredAck(s: Rx): (r: Rx)
    ensures r.line == s.line && r.pkt == s.pkt && r.nextBlk == s.nextBlk && r.atEof == s.atEof
  {
    if s.txAck then Putc(s, ACK).(txAck := false) else s
  }

  function GetHdr(s: Rx): (r: (Rx, Stat))
    requires |s.pkt| >= BIG
    ensures |r.0.line| <= |s.line| && |r.0.pkt| == |s.pkt|
    ensures r.1.Ok? ==> (r.0.len == SMALL || r.0.len == BIG) && r.0.bufp == 0
    ensures r.1.Ok? ==> |r.0.line| + 5 + SMALL <= |s.line|
    ensures r.0.nextBlk == s.nextBlk && r.0.atEof == s.atEof
  {
    var s0 := SendDeferredAck(s);
    match Hunt(s0.line, 0, 0)
    case Quiet(rest) => (s0.(line := rest), Timeout)
    case Cancelled(rest) => (s0.(line := rest), Cancel)
    case Ended(rest) => (Putc(s0.(line := rest), ACK), Eof)
    case Header(c, rest) => ReadBlock(s0.(line := rest), c)
  }

  // ----- xyzModem_stream_read -----

  function DropPads(data: seq<byte>): (r: seq<byte>)
    ensures r <= data
  {
    if data != [] && data[|data| - 1] == PAD then DropPads(data[..|data| - 1]) else data
  }

  predicate EndsInPads(data: seq<byte>) {
    var n := |data|;
    n >= 3 && data[n - 1] == PAD && data[n - 2] == PAD && data[n - 3] == PAD
  }

  /** The block without its padding, recognised by three pad bytes at the end. */
  function Stripped(data: seq<byte>): (r: seq<byte>)
    ensures r <= data
  {
    if EndsInPads(data) then DropPads(data) else data
  }

  /** The block held in the packet buffer, as it came over the line. */
  function CurrentFrame(s: Rx): Frame {
    Frame(if s.len == SMALL then SOH else STX, s.blk, s.cblk,
          if 0 <= s.len <= |s.pkt| then s.pkt[..s.len] else [], s.crc1, s.crc2)
  }

  function AcceptBlock(s: Rx): (r: Rx)
    requires 0 <= s.len <= |s.pkt|
    ensures 0 <= r.len <= s.len && r.bufp == s.bufp && r.pkt == s.pkt
    ensures r.line == s.line && r.atEof == s.atEof
  {
    s.(txAck := true, nextBlk := s.nextBlk + 1,
       len := |Stripped(s.pkt[..s.len])|,
       trace := s.trace + [Accept(CurrentFrame(s))])
  }

  datatype Step = Stop | Again

  /** The number of the block before the one that is expected next. */
  predicate IsPrevious(b: byte, next: byte) { b == next - 1 }

  /** What the retry loop does with the result of a header attempt. */
  function React(s: Rx, stat: Stat): (r: (Rx, Stat, Step))
    requires stat.Ok? ==> 0 <= s.len <= |s.pkt|
    ensures r.0.line == s.line && r.0.pkt == s.pkt && r.0.bufp == s.bufp
    ensures r.1.Ok? ==> stat.Ok? && 0 <= r.0.len <= s.len
    ensures r.0.atEof == (s.atEof || r.1.Eof?)
  {
    if stat.Ok? then
      if s.blk == s.nextBlk then (AcceptBlock(s), Ok, Stop)
      else if IsPrevious(s.blk, s.nextBlk) then (Putc(s.(trace := s.trace + [Duplicate]), ACK), Ok, Again)
      else (Putc(s, POLL), BadSequence, Again)
    else if stat.Cancel? then (s, Cancel, Stop)
    else if stat.Eof? then (Putc(s, ACK).(atEof := true), Eof, Stop)
    else (Putc(s, POLL), stat, Again)
  }

  /** One pass of the retry loop. */
  function Attempt(s: Rx): (r: (Rx, Stat, Step))
    requires |s.pkt| >= BIG
    ensures |r.0.line| <= |s.line| && |r.0.pkt| == |s.pkt|
    ensures r.1.Ok? ==> 0 <= r.0.len <= BIG && r.0.bufp == 0
    ensures r.1.Ok? ==> |r.0.line| + 5 + SMALL <= |s.line|
    ensures r.0.atEof == (s.atEof || r.1.Eof?)
  {
    var (s1, stat) := GetHdr(s.(trace := s.trace + [Try]));
    React(s1, stat)
  }

  /** The retry loop with `retries` passes left; running out of them on a duplicate leaves
      status Ok although no new block has come. */
  function Fetch(s: Rx, retries: nat): (r: (Rx, Stat))
    requires |s.pkt| >= BIG && retries > 0
    ensures |r.0.line| <= |s.line| && |r.0.pkt| == |s.pkt|
    ensures r.1.Ok? ==> 0 <= r.0.len <= BIG && r.0.bufp == 0
    ensures r.1.Ok? ==> |r.0.line| + 5 + SMALL <= |s.line|
    ensures r.0.atEof == (s.atEof || r.1.Eof?)
    decreases retries, |s.line|
  {
    var (s1, stat, step) := Attempt(s);
    if step.Stop? then (s1, stat)
    else if retries == 1 then GiveUp(s1, stat)
    else Fetch(s1, retries - 1)
  }

  function GiveUp(s: Rx, stat: Stat): (Rx, Stat)
    requires stat.Ok? ==> 0 <= s.len <= |s.pkt|
  {
    if stat.Ok? then (s.(trace := s.trace + [Overrun(s.pkt[..s.len])]), Ok) else (s, stat)
  }

  function FetchBlock(s: Rx): (r: (Rx, Stat))
    requires |s.pkt| >= BIG
    ensures |r.0.line| <= |s.line| && |r.0.pkt| == |s.pkt|
    ensures r.1.Ok? ==> 0 <= r.0.len <= BIG && r.0.bufp == 0
    ensures r.1.Ok? ==> |r.0.line| + 5 + SMALL <= |s.line|
    ensures r.0.atEof == (s.atEof || r.1.Eof?)
    ensures !r.1.Ok? ==> r.0.len == -1
  {
    var (s1, stat) := Fetch(s, MAX_RETRIES);
    if stat.Ok? then (s1, Ok) else (s1.(len := -1), stat)
  }

  /** A state in which the next read is within its contract: the last one did not fail, unless
      it met the end of the file. */
  predicate Readable(s: Rx) {
    && |s.pkt| >= BIG
    && (s.atEof || (0 <= s.len && 0 <= s.bufp && s.bufp + s.len <= |s.pkt|))
  }

  function Gives(data: seq<byte>): (t: seq<Action>)
    ensures |t| == |data|
  {
    seq(|data|, i requires 0 <= i < |data| => Give(data[i]))
  }

  /** Received bytes not yet handed over. */
  function Pending(s: Rx): seq<byte>
    requires Readable(s)
  {
    if s.atEof then [] else s.pkt[s.bufp..s.bufp + s.len]
  }

  function Copy(s: Rx, n: nat): (r: Rx)
    requires Readable(s) && !s.atEof && n <= s.len
    ensures Readable(r) && r.line == s.line && r.pkt == s.pkt && r.len == s.len - n && r.atEof == s.atEof
  {
    s.(len := s.len - n, bufp := s.bufp + n, trace := s.trace + Gives(s.pkt[s.bufp..s.bufp + n]))
  }

  datatype Outcome = Outcome(s: Rx, data: seq<byte>, err: Option<Stat>) {
    predicate Failed() { err.Some? && err.value != Eof }

    /** The outcome of a read that handed over `before` first. */
    function After(before: seq<byte>): Outcome { Outcome(s, before + data, err) }
  }

  function Min(a: int, b: int): int { if a < b then a else b }

  /** Get a block if there is nothing to hand over. */
  function Refill(s: Rx): (r: (Rx, Stat))
    requires Readable(s) && !s.atEof
    ensures |r.0.line| <= |s.line| && |r.0.pkt| == |s.pkt|
    ensures s.len == 0 && r.1.Ok? ==> |r.0.line| < |s.line|
    ensures s.len > 0 ==> r == (s, Ok)
    ensures r.1.Ok? ==> Readable(r.0) && !r.0.atEof
    ensures !r.1.Ok? ==> r.0.len == -1 && r.0.atEof == r.1.Eof?
  {
    if s.len == 0 then FetchBlock(s) else (s, Ok)
  }

  /** One read of up to `size` bytes. */
  function Read(s: Rx, size: int): (r: Outcome)
    requires Readable(s)
    ensures !r.Failed() ==> Readable(r.s)
    ensures |r.s.line| <= |s.line| && |r.s.pkt| == |s.pkt|
    decreases |s.line|, size
  {
    if s.atEof || size <= 0 then Outcome(s, [], None) else
    var (s1, stat) := Refill(s);
    if stat != Ok then Outcome(s1, [], Some(stat)) else
    var n := Min(size, s1.len);
    Read(Copy(s1, n), size - n).After(s1.pkt[s1.bufp..s1.bufp + n])
  }

  lemma ReadDone(s: Rx, size: int)
    requires Readable(s) && (s.atEof || size <= 0)
    ensures Read(s, size) == Outcome(s, [], None)
  {
  }

  lemma ReadStep(s: Rx, size: int)
    requires Readable(s) && !s.atEof && size > 0
    ensures var (s1, stat) := Refill(s);
      if stat != Ok then Read(s, size) == Outcome(s1, [], Some(stat))
      else
        var n := Min(size, s1.len);
        Read(s, size) == Read(Copy(s1, n), size - n).After(s1.pkt[s1.bufp..s1.bufp + n])
  {
    hide FetchBlock;
  }
}
