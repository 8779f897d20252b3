/** The retry budget spent on a duplicate: a block is handed over twice. */
module XmodemOverrun {
  import opened Crc
  import opened Line
  import opened Xmodem
  import opened XmodemTrace
  import opened XmodemFrame
  import opened XmodemNoise
  import opened XmodemFile
  import opened XmodemLines

  function Copies(f: Frame, n: nat): (r: seq<Noise>)
    ensures |r| == n
  {
    seq(n, _ => Stray(f))
  }

  /** When block 1 is followed by 200 more copies of itself, a read that asks for more than the
      first copy returns the data of the 200th repetition as well, although only one block was
      ever accepted. */
  lemma OverrunDelivers(s: Rx, f: Frame)
    requires |s.pkt| >= BIG && Block(1, f) && Stripped(f.data) != []
    requires Delivers(s.line, Wire(f) + Wires(Copies(f, MAX_RETRIES)))
    ensures Readable(Open(s))
    ensures var r := Read(Open(s), |Stripped(f.data)| + |f.data|);
      r.data == Stripped(f.data) + f.data && !NoOverrun(r.s.trace)
  {
    hide Read, Refill, Delivers, Advance, Wire, Block, Stripped, Copy, NoOverrun;
    var o, d, copies := Open(s), Stripped(f.data), Copies(f, MAX_RETRIES);
    DeliversSplit(s.line, Wire(f), Wires(copies));
    ReadStep(o, |d| + |f.data|);
    FirstCopy(o, f);
    var s1 := Refill(o).0;
    CopyFacts(s1, |d|);
    ReadLastCopy(Copy(s1, |d|), f);
  }

  lemma ReadLastCopy(s: Rx, f: Frame)
    requires Readable(s) && !s.atEof && s.len == 0 && s.nextBlk == 2
    requires Block(1, f) && Delivers(s.line, Wires(Copies(f, MAX_RETRIES)))
    ensures var r := Read(s, |f.data|); r.data == f.data && !NoOverrun(r.s.trace)
  {
    hide Read, Refill, Delivers, Advance, Wires, Copies, Copy, NoOverrun, GoodChecksum;
    ReadStep(s, |f.data|);
    LastCopy(s, f);
    var s2 := Refill(s).0;
    CopyFacts(s2, |f.data|);
    ReadDone(Copy(s2, |f.data|), 0);
    OverrunStays(s2, |f.data|);
    assert f.data[..|f.data|] + [] == f.data;
  }

  lemma OverrunStays(s: Rx, n: nat)
    requires Readable(s) && !s.atEof && n <= s.len
    requires s.trace != [] && s.trace[|s.trace| - 1].Overrun?
    ensures !NoOverrun(Copy(s, n).trace)
  {
    var t := Copy(s, n).trace;
    assert t[|s.trace| - 1] == s.trace[|s.trace| - 1];
  }

  lemma FirstCopy(s: Rx, f: Frame)
    requires Readable(s) && !s.atEof && s.len == 0 && s.nextBlk == 1
    requires Block(1, f) && Delivers(s.line, Wire(f))
    ensures var (r, stat) := Refill(s);
      && stat.Ok? && Pending(r) == Stripped(f.data) && r.nextBlk == 2
      && r.line == Advance(s.line, |Wire(f)|)
  {
    hide Fetch, Delivers, Advance, Wire, Block, Stripped;
    FetchThrough(s, [], f, MAX_RETRIES);
  }

  lemma LastCopy(s: Rx, f: Frame)
    requires Readable(s) && !s.atEof && s.len == 0 && s.nextBlk == 2
    requires Block(1, f) && Delivers(s.line, Wires(Copies(f, MAX_RETRIES)))
    ensures var (r, stat) := Refill(s);
      && stat.Ok? && Pending(r) == f.data && r.nextBlk == 2
      && r.trace != [] && r.trace[|r.trace| - 1].Overrun?
  {
    hide Fetch, Delivers, Advance, Wire, GoodChecksum;
    assert Wires(Copies(f, MAX_RETRIES)) + [] == Wires(Copies(f, MAX_RETRIES));
    SuffersFrames(s.line, 2, Copies(f, MAX_RETRIES), []);
    TooMuchNoise(s, Copies(f, MAX_RETRIES), MAX_RETRIES);
  }

  /** A block of zeros with number 1; its checksum is 0. */
  function ZeroBlock(): Frame { Frame(SOH, 0x01, 0xFE, seq(SMALL, _ => 0), 0, 0) }

  lemma {:induction false} ZerosHaveChecksumZero(n: nat)
    ensures Checksum(seq(n, _ => 0)) == 0
  {
    if n > 0 {
      ZerosHaveChecksumZero(n - 1);
      assert seq(n, _ => 0 as byte)[..n - 1] == seq(n - 1, _ => 0 as byte);
    }
  }

  /** So there are lines on which the bytes returned are not the contents of the accepted blocks. */
  lemma OverrunHappens() returns (s: Rx)
    ensures |s.pkt| >= BIG && Readable(Open(s))
    ensures Read(Open(s), 256).data == ZeroBlock().data + ZeroBlock().data
    ensures !NoOverrun(Read(Open(s), 256).s.trace)
  {
    hide Read, Delivers, Wires, Copies, Wire, Advance;
    var f := ZeroBlock();
    ZerosHaveChecksumZero(SMALL);
    assert Block(1, f);
    var bs := Wire(f) + Wires(Copies(f, MAX_RETRIES));
    BackToBack(bs, []);
    var line := Events(bs) + [];
    s := Rx(line, seq(BIG, _ => 0), 0, 0, 0, 0, 0, 0, 0, false, false, []);
    assert Stripped(f.data) == f.data;
    OverrunDelivers(s, f);
  }
}
