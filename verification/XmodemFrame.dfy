/** One frame on the line: what a header attempt makes of it. */
module XmodemFrame {
  import opened Crc
  import opened Line
  import opened Xmodem
  import opened XmodemTrace
  import opened XmodemSafety

  lemma {:induction false} FillArrives(s: Rx, i: nat, data: seq<byte>)
    requires i <= s.len <= |s.pkt| && |data| == s.len - i
    requires Delivers(s.line, data)
    ensures Fill(s, i) ==
      (s.(line := Advance(s.line, |data|), pkt := s.pkt[..i] + data + s.pkt[s.len..]), true)
    decreases |data|
  {
    hide Getc;
    if data == [] {
      assert s.pkt[..i] + data + s.pkt[s.len..] == s.pkt;
    } else {
      var r := Getc(s.line);
      var s1 := s.(line := r.rest, pkt := s.pkt[i := r.b]);
      FillArrives(s1, i + 1, data[1..]);
      assert s1.pkt[..i + 1] + data[1..] + s1.pkt[s.len..] == s.pkt[..i] + data + s.pkt[s.len..];
    }
  }

  /** The receiver with the frame in its packet buffer and the line moved on. */
  function Loaded(s: Rx, f: Frame, line: Line): Rx
    requires |f.data| <= |s.pkt|
  {
    s.(line := line, blk := f.blk, cblk := f.cblk, len := |f.data|, bufp := 0,
       pkt := f.data + s.pkt[|f.data|..], crc1 := f.crc1, crc2 := f.crc2)
  }

  lemma TwoArrive(line: Line, x: byte, y: byte, more: seq<byte>)
    requires Delivers(line, [x, y] + more)
    ensures var r := Getc(line); r.Got? && r.b == x
    ensures var r := Getc(Getc(line).rest); r.Got? && r.b == y && r.rest == Advance(line, 2)
    ensures Delivers(Advance(line, 2), more)
  {
    hide Getc;
    var bs := [x, y] + more;
    assert bs[0] == x && bs[1..][0] == y && bs[1..][1..] == more;
    assert Delivers(Getc(line).rest, bs[1..]);
    assert Advance(line, 2) == Advance(Getc(line).rest, 1) == Advance(Getc(Getc(line).rest).rest, 0);
  }

  lemma NumberArrives(s: Rx, x: byte, y: byte, more: seq<byte>)
    requires Delivers(s.line, [x, y] + more)
    ensures ReadNumber(s) == (s.(line := Advance(s.line, 2), blk := x, cblk := y), true)
    ensures Delivers(Advance(s.line, 2), more)
  {
    hide Getc, Delivers, Advance;
    TwoArrive(s.line, x, y, more);
  }

  lemma ChecksumArrives(s: Rx, x: byte, y: byte)
    requires Delivers(s.line, [x, y])
    ensures ReadChecksum(s) == (s.(line := Advance(s.line, 2), crc1 := x, crc2 := y), true)
  {
    hide Getc, Delivers, Advance;
    assert [x, y] + [] == [x, y];
    TwoArrive(s.line, x, y, []);
  }

  lemma BodyArrives(s: Rx, f: Frame)
    requires |s.pkt| >= BIG && Shaped(f) && Delivers(s.line, Body(f))
    ensures ReadBlock(s, f.hdr) == Validate(Loaded(s, f, Advance(s.line, |Body(f)|)))
  {
    hide ReadNumber, ReadChecksum, Fill, Validate, Delivers, Advance;
    var l2, n := Advance(s.line, 2), |f.data|;
    assert Body(f) == [f.blk, f.cblk] + (f.data + [f.crc1, f.crc2]);
    NumberArrives(s, f.blk, f.cblk, f.data + [f.crc1, f.crc2]);
    DeliversSplit(l2, f.data, [f.crc1, f.crc2]);
    AdvanceAdd(s.line, 2, n);
    AdvanceAdd(s.line, 2 + n, 2);
    var s1 := s.(line := l2, blk := f.blk, cblk := f.cblk, len := n, bufp := 0);
    FillArrives(s1, 0, f.data);
    var s2 := s1.(line := Advance(l2, n), pkt := f.data + s.pkt[n..]);
    assert s1.pkt[..0] + f.data + s1.pkt[n..] == s2.pkt;
    ChecksumArrives(s2, f.crc1, f.crc2);
  }

  lemma FrameArrives(s: Rx, f: Frame)
    requires |s.pkt| >= BIG && Shaped(f) && Delivers(s.line, Wire(f))
    ensures GetHdr(s) == Validate(Loaded(SendDeferredAck(s), f, Advance(s.line, |Wire(f)|)))
  {
    hide Getc, GetHdr, Validate, ReadBlock, Body;
    var r := Getc(s.line);
    assert Wire(f)[0] == f.hdr && Wire(f)[1..] == Body(f) by {
      WireIsHeaderAndBody(f, []);
      assert Body(f) + [] == Body(f) && Wire(f) + [] == Wire(f);
    }
    assert Hunt(s.line, 0, 0) == Header(f.hdr, r.rest);
    HeaderFound(s);
    BodyArrives(SendDeferredAck(s).(line := r.rest), f);
  }

  /** With a correct complement the verdict is that of the checksum. */
  lemma FrameVerdict(s: Rx, f: Frame)
    requires |s.pkt| >= BIG && Shaped(f) && Complementary(f.blk, f.cblk) && Delivers(s.line, Wire(f))
    ensures GetHdr(s) ==
      (Loaded(SendDeferredAck(s), f, Advance(s.line, |Wire(f)|)), if GoodChecksum(f) then Ok else BadChecksum)
  {
    hide GetHdr, Delivers, Advance, Wire, Checksum, SendDeferredAck;
    FrameArrives(s, f);
    assert (f.data + s.pkt[|f.data|..])[..|f.data|] == f.data;
  }

  predicate Block(next: byte, f: Frame) { Sound(f) && f.blk == next }

  lemma BlockAccepted(s: Rx, f: Frame, line: Line)
    requires |f.data| <= |s.pkt| && f.blk == s.nextBlk
    ensures var (r, stat, step) := React(Loaded(s, f, line), Ok);
      && step.Stop? && stat.Ok? && r.line == line
      && r.nextBlk == s.nextBlk + 1 && r.atEof == s.atEof && |r.pkt| == |s.pkt|
      && r.len == |Stripped(f.data)| && r.pkt[..r.len] == Stripped(f.data) && r.bufp == 0
      && r.trace == s.trace + [Accept(CurrentFrame(Loaded(s, f, line)))]
  {
    hide Stripped, IsPrevious, CurrentFrame;
    assert (f.data + s.pkt[|f.data|..])[..|f.data|] == f.data;
  }

  lemma BlockAttempt(s: Rx, f: Frame)
    requires |s.pkt| >= BIG && Block(s.nextBlk, f) && Delivers(s.line, Wire(f))
    ensures var (r, stat, step) := Attempt(s);
      && step.Stop? && stat.Ok? && r.line == Advance(s.line, |Wire(f)|)
      && r.nextBlk == s.nextBlk + 1 && r.atEof == s.atEof && |r.pkt| == |s.pkt|
      && r.len == |Stripped(f.data)| && r.pkt[..r.len] == Stripped(f.data) && r.bufp == 0
  {
    hide GetHdr, Delivers, Advance, Wire, GoodChecksum, Stripped, React, Loaded, SendDeferredAck;
    var s0 := s.(trace := s.trace + [Try]);
    FrameVerdict(s0, f);
    BlockAccepted(SendDeferredAck(s0), f, Advance(s.line, |Wire(f)|));
  }

  lemma EndAttempt(s: Rx)
    requires |s.pkt| >= BIG && Delivers(s.line, [EOT])
    ensures var (r, stat, step) := Attempt(s); step.Stop? && stat.Eof? && r.atEof
  {
    hide Getc;
    assert Hunt(s.line, 0, 0) == Ended(Getc(s.line).rest);
  }
}
