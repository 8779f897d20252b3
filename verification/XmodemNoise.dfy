/** Whatever may stand between the blocks of a file and costs a header attempt: stray frames, silence,
    broken frames and frames cut short; and how the retry loop gets through it. */
module XmodemNoise {
  import opened Crc
  import opened Line
  import opened Xmodem
  import opened XmodemTrace
  import opened XmodemSafety
  import opened XmodemFrame
  import opened XmodemHeader

  datatype Noise =
    | Stray(frame: Frame)                       // a whole frame that is not the block expected
    | Silence(junk: seq<byte>)                  // no byte in time, after bytes that start nothing
    | Broken(frame: Frame, swallowed: seq<byte>) // number and complement disagree; bytes behind it
    | Short(frame: Frame, n: nat)               // `n` bytes of a frame, and then no byte in time

  /** A complete frame with a correct complement that is not the block numbered `next`: its
      checksum is wrong, or it repeats the block before, or it is out of sequence. */
  predicate StrayFrame(next: byte, f: Frame) {
    && Shaped(f) && Complementary(f.blk, f.cblk)
    && !(GoodChecksum(f) && f.blk == next)
  }

  /** The bytes at the front of the line come without a pause, and are followed by one. */
  predicate Burst(line: Line, bs: seq<byte>) {
    |bs| <= |line| && line[..|bs|] == Events(bs) && !Ready(line[|bs|..])
  }

  /** The line begins with this noise, when the block numbered `next` is expected. */
  predicate Disturbs(d: Noise, line: Line, next: byte) {
    match d
    case Stray(f) => StrayFrame(next, f) && Delivers(line, Wire(f))
    case Silence(junk) => Junk(junk) && Delivers(line, junk) && Silent(Advance(line, |junk|))
    case Broken(f, swallowed) =>
      && Shaped(f) && !Complementary(f.blk, f.cblk) && Delivers(line, Wire(f))
      && Burst(Advance(line, |Wire(f)|), swallowed)
    case Short(f, n) =>
      && Shaped(f) && 1 <= n < |Wire(f)|
      && Delivers(line, Wire(f)[..n]) && Silent(Advance(line, n))
  }

  const EXIT_TICKS: nat := EXIT_TIMEOUT / POLL_INTERVAL

  /** The line after the noise.  After a silence bytes may have come during the delay that follows. */
  function Passed(d: Noise, line: Line): Line {
    match d
    case Stray(f) => Advance(line, |Wire(f)|)
    case Silence(junk) => Elapse(AfterWait(Advance(line, |junk|)), EXIT_TICKS)
    case Broken(f, swallowed) =>
      var rest := Advance(line, |Wire(f)|);
      if |swallowed| <= |rest| then rest[|swallowed|..] else []
    case Short(_, n) => AfterWait(Advance(line, n))
  }

  /** The frame repeats the block before the one expected. */
  predicate Repeats(d: Noise, next: byte) {
    d.Stray? && GoodChecksum(d.frame) && IsPrevious(d.frame.blk, next)
  }

  function StatusOf(d: Noise, next: byte): Stat {
    match d
    case Stray(f) =>
      if !GoodChecksum(f) then BadChecksum else if IsPrevious(f.blk, next) then Ok else BadSequence
    case Broken(_, _) => BadFrame
    case _ => Timeout
  }

  /** What the receiver sends: a repeated block is acknowledged again, for anything else it polls. */
  function Answer(d: Noise, next: byte): seq<Action> {
    if Repeats(d, next) then [Duplicate, Put(ACK)] else [Put(POLL)]
  }

  /** What is true of every attempt that meets noise. */
  predicate MeetsNoise(s: Rx, d: Noise, r: Rx, stat: Stat, step: Step) {
    && step.Again? && stat == StatusOf(d, s.nextBlk) && r.line == Passed(d, s.line)
    && r.nextBlk == s.nextBlk && r.atEof == s.atEof && |r.pkt| == |s.pkt|
    && (stat.Ok? ==> r.len == |d.frame.data| <= |r.pkt| && r.pkt[..r.len] == d.frame.data && r.bufp == 0)
    && !r.txAck && r.trace == s.trace + Begun(s.txAck) + Answer(d, s.nextBlk)
  }

  lemma HeaderBegun(s: Rx)
    requires |s.pkt| >= BIG
    ensures var s0 := s.(trace := s.trace + [Try]);
      var (r, stat) := GetHdr(s0);
      && !r.txAck && r.nextBlk == s.nextBlk && r.atEof == s.atEof && |r.pkt| == |s.pkt|
      && (!stat.Eof? ==> r.trace == s.trace + Begun(s.txAck))
  {
    hide GetHdr;
    HeaderActions(s.(trace := s.trace + [Try]));
    assert s.trace + [Try] + [Put(ACK)] == s.trace + ([Try] + [Put(ACK)]);
    assert s.trace + [Try] == s.trace + ([Try] + []);
  }

  lemma Failing(s: Rx, d: Noise)
    requires |s.pkt| >= BIG && !d.Stray?
    requires var (r, stat) := GetHdr(s.(trace := s.trace + [Try]));
      stat == StatusOf(d, s.nextBlk) && r.line == Passed(d, s.line)
    ensures var (r, stat, step) := Attempt(s); MeetsNoise(s, d, r, stat, step)
  {
    hide GetHdr, Passed, Begun;
    HeaderBegun(s);
  }

  lemma StrayAttempt(s: Rx, f: Frame)
    requires |s.pkt| >= BIG && Disturbs(Stray(f), s.line, s.nextBlk)
    ensures var (r, stat, step) := Attempt(s); MeetsNoise(s, Stray(f), r, stat, step)
  {
    hide GetHdr, Delivers, Advance, Wire, GoodChecksum, IsPrevious, AcceptBlock, Begun;
    var s0 := s.(trace := s.trace + [Try]);
    FrameVerdict(s0, f);
    HeaderBegun(s);
    var t := GetHdr(s0).0.trace;
    assert t + [Duplicate] + [Put(ACK)] == t + [Duplicate, Put(ACK)];
  }

  lemma BrokenAttempt(s: Rx, f: Frame, swallowed: seq<byte>)
    requires |s.pkt| >= BIG && Disturbs(Broken(f, swallowed), s.line, s.nextBlk)
    ensures var (r, stat, step) := Attempt(s); MeetsNoise(s, Broken(f, swallowed), r, stat, step)
  {
    hide GetHdr, Delivers, Advance, Wire, Checksum, SendDeferredAck, Flush, MeetsNoise;
    var s0 := s.(trace := s.trace + [Try]);
    FrameArrives(s0, f);
    var rest := Advance(s.line, |Wire(f)|);
    FlushExact(swallowed, rest[|swallowed|..]);
    assert rest == Events(swallowed) + rest[|swallowed|..];
    Failing(s, Broken(f, swallowed));
  }

  lemma SilenceAttempt(s: Rx, junk: seq<byte>)
    requires |s.pkt| >= BIG && Disturbs(Silence(junk), s.line, s.nextBlk)
    ensures var (r, stat, step) := Attempt(s); MeetsNoise(s, Silence(junk), r, stat, step)
  {
    hide Getc, Delivers, Advance, Junk, Cans, MeetsNoise, Silent, AfterWait, Elapse;
    var rest := Advance(s.line, |junk|);
    SkipJunk(s.line, junk);
    SilentGetc(rest);
    assert Hunt(s.line, 0, 0) == Quiet(Passed(Silence(junk), s.line));
    Failing(s, Silence(junk));
  }

  // ----- Frames cut short -----

  lemma {:induction false} FillShort(s: Rx, i: nat, bs: seq<byte>)
    requires i + |bs| < s.len <= |s.pkt| && Delivers(s.line, bs) && Silent(Advance(s.line, |bs|))
    ensures var (r, full) := Fill(s, i); !full && r.line == AfterWait(Advance(s.line, |bs|))
    decreases |bs|
  {
    hide Getc, Silent, AfterWait;
    if bs == [] {
      SilentGetc(s.line);
    } else {
      var r := Getc(s.line);
      FillShort(s.(line := r.rest, pkt := s.pkt[i := r.b]), i + 1, bs[1..]);
    }
  }

  /** Fewer than two bytes, and then none in time. */
  lemma TwoShort(line: Line, bs: seq<byte>)
    requires |bs| < 2 && Delivers(line, bs) && Silent(Advance(line, |bs|))
    ensures if bs == [] then Getc(line) == TimedOut(AfterWait(line))
      else Getc(line).Got? && Getc(Getc(line).rest) == TimedOut(AfterWait(Advance(line, 1)))
  {
    hide Getc, Silent, AfterWait;
    SilentGetc(Advance(line, |bs|));
    if bs != [] {
      assert Advance(line, 1) == Advance(Getc(line).rest, 0);
    }
  }

  lemma NumberShort(s: Rx, bs: seq<byte>)
    requires |bs| < 2 && Delivers(s.line, bs) && Silent(Advance(s.line, |bs|))
    ensures var (r, ok) := ReadNumber(s); !ok && r.line == AfterWait(Advance(s.line, |bs|))
  {
    hide Getc, Silent, AfterWait, Delivers;
    TwoShort(s.line, bs);
  }

  lemma ChecksumShort(s: Rx, bs: seq<byte>)
    requires |bs| < 2 && Delivers(s.line, bs) && Silent(Advance(s.line, |bs|))
    ensures var (r, ok) := ReadChecksum(s); !ok && r.line == AfterWait(Advance(s.line, |bs|))
  {
    hide Getc, Silent, AfterWait, Delivers;
    TwoShort(s.line, bs);
  }

  /** A block cut short behind its number. */
  lemma DataShort(s: Rx, f: Frame, n: nat)
    requires |s.pkt| >= BIG && Shaped(f) && n < |f.data| + 2 && s.len == |f.data|
    requires var rest := f.data + [f.crc1, f.crc2];
      Delivers(s.line, rest[..n]) && Silent(Advance(s.line, n))
    ensures var (s2, full) := Fill(s, 0);
      if full then !ReadChecksum(s2).1 && ReadChecksum(s2).0.line == AfterWait(Advance(s.line, n))
      else s2.line == AfterWait(Advance(s.line, n))
  {
    hide ReadChecksum, Delivers, Advance, Silent, AfterWait, Fill;
    var rest, m := f.data + [f.crc1, f.crc2], |f.data|;
    if n < m {
      FillShort(s, 0, rest[..n]);
    } else {
      assert rest[..n] == f.data + [f.crc1, f.crc2][..n - m];
      DeliversSplit(s.line, f.data, [f.crc1, f.crc2][..n - m]);
      FillArrives(s, 0, f.data);
      AdvanceAdd(s.line, m, n - m);
      ChecksumShort(Fill(s, 0).0, [f.crc1, f.crc2][..n - m]);
    }
  }

  lemma BodyShort(s: Rx, f: Frame, n: nat)
    requires |s.pkt| >= BIG && Shaped(f) && n < |Body(f)|
    requires Delivers(s.line, Body(f)[..n]) && Silent(Advance(s.line, n))
    ensures var (r, stat) := ReadBlock(s, f.hdr); stat == Timeout && r.line == AfterWait(Advance(s.line, n))
  {
    hide ReadNumber, ReadChecksum, Fill, Validate, Delivers, Advance, Silent, AfterWait;
    if n < 2 {
      NumberShort(s, Body(f)[..n]);
    } else {
      var rest := f.data + [f.crc1, f.crc2];
      assert Body(f)[..n] == [f.blk, f.cblk] + rest[..n - 2];
      NumberArrives(s, f.blk, f.cblk, rest[..n - 2]);
      AdvanceAdd(s.line, 2, n - 2);
      var s1 := ReadNumber(s).0;
      DataShort(s1.(len := if f.hdr == SOH then SMALL else BIG, bufp := 0), f, n - 2);
    }
  }

  lemma ShortAttempt(s: Rx, f: Frame, n: nat)
    requires |s.pkt| >= BIG && Disturbs(Short(f, n), s.line, s.nextBlk)
    ensures var (r, stat, step) := Attempt(s); MeetsNoise(s, Short(f, n), r, stat, step)
  {
    hide Getc, ReadBlock, Silent, AfterWait, MeetsNoise, GetHdr;
    var s0 := s.(trace := s.trace + [Try]);
    var r := Getc(s.line);
    assert Wire(f) == [f.hdr] + Body(f);
    assert Wire(f)[..n][0] == f.hdr && Wire(f)[..n][1..] == Body(f)[..n - 1];
    assert Hunt(s.line, 0, 0) == Header(f.hdr, r.rest);
    HeaderFound(s0);
    BodyShort(SendDeferredAck(s0).(line := r.rest), f, n - 1);
    Failing(s, Short(f, n));
  }

  lemma NoiseAttempt(s: Rx, d: Noise)
    requires |s.pkt| >= BIG && Disturbs(d, s.line, s.nextBlk)
    ensures var (r, stat, step) := Attempt(s); MeetsNoise(s, d, r, stat, step)
  {
    hide Disturbs, Attempt, MeetsNoise;
    match d
    case Stray(f) => StrayAttempt(s, f);
    case Silence(junk) => SilenceAttempt(s, junk);
    case Broken(f, swallowed) => BrokenAttempt(s, f, swallowed);
    case Short(f, n) => ShortAttempt(s, f, n);
  }

  // ----- The retry loop -----

  /** The line begins with these pieces of noise, one after the other. */
  predicate Suffers(line: Line, next: byte, noise: seq<Noise>)
    decreases |noise|
  {
    noise == [] || (Disturbs(noise[0], line, next) && Suffers(Passed(noise[0], line), next, noise[1..]))
  }

  /** The line after them. */
  function PassedAll(line: Line, noise: seq<Noise>): Line
    decreases |noise|
  {
    if noise == [] then line else PassedAll(Passed(noise[0], line), noise[1..])
  }

  lemma FetchAgain(s: Rx, retries: nat)
    requires |s.pkt| >= BIG && retries > 0
    ensures var (s1, stat, step) := Attempt(s);
      step.Again? ==> Fetch(s, retries) == if retries == 1 then GiveUp(s1, stat) else Fetch(s1, retries - 1)
  {
    hide Attempt;
  }

  /** The retry loop gets through fewer pieces of noise than it has attempts, to the expected block. */
  lemma {:induction false} FetchThrough(s: Rx, noise: seq<Noise>, f: Frame, retries: nat)
    requires |s.pkt| >= BIG && Suffers(s.line, s.nextBlk, noise) && Block(s.nextBlk, f)
    requires |noise| < retries
    requires Delivers(PassedAll(s.line, noise), Wire(f))
    ensures var (r, stat) := Fetch(s, retries);
      && stat.Ok? && r.line == Advance(PassedAll(s.line, noise), |Wire(f)|)
      && r.nextBlk == s.nextBlk + 1 && r.atEof == s.atEof && |r.pkt| == |s.pkt|
      && r.len == |Stripped(f.data)| && r.pkt[..r.len] == Stripped(f.data) && r.bufp == 0
    decreases |noise|
  {
    hide Attempt, Delivers, Advance, Wire, Disturbs, Passed, Sound, Stripped;
    if noise == [] {
      BlockAttempt(s, f);
    } else {
      NoiseAttempt(s, noise[0]);
      FetchThrough(Attempt(s).0, noise[1..], f, retries - 1);
    }
  }

  lemma {:induction false} FetchToEnd(s: Rx, noise: seq<Noise>, retries: nat)
    requires |s.pkt| >= BIG && Suffers(s.line, s.nextBlk, noise)
    requires |noise| < retries
    requires Delivers(PassedAll(s.line, noise), [EOT])
    ensures var (r, stat) := Fetch(s, retries); stat.Eof? && r.atEof
    decreases |noise|
  {
    hide Attempt, Delivers, Advance, Wire, Disturbs, Passed;
    if noise == [] {
      EndAttempt(s);
    } else {
      NoiseAttempt(s, noise[0]);
      FetchToEnd(Attempt(s).0, noise[1..], retries - 1);
    }
  }

  /** As many pieces of noise as attempts exhaust the loop: no block is accepted.  The loop then
      fails, with the status of the last of them, except when that repeats the previous block: its
      data is taken as new. */
  lemma {:induction false} TooMuchNoise(s: Rx, noise: seq<Noise>, retries: nat)
    requires |s.pkt| >= BIG && Suffers(s.line, s.nextBlk, noise)
    requires |noise| == retries > 0
    ensures var (r, stat) := Fetch(s, retries);
      var last := noise[retries - 1];
      && r.nextBlk == s.nextBlk && r.atEof == s.atEof && |r.pkt| == |s.pkt|
      && r.line == PassedAll(s.line, noise) && stat == StatusOf(last, s.nextBlk)
      && (stat.Ok? ==> r.bufp == 0 && r.len == |last.frame.data| <= |r.pkt| && r.pkt[..r.len] == last.frame.data
                       && r.trace != [] && r.trace[|r.trace| - 1].Overrun?)
    decreases |noise|
  {
    hide Attempt, Disturbs, Passed, GoodChecksum, IsPrevious, Fetch, StatusOf, Begun, Answer;
    NoiseAttempt(s, noise[0]);
    FetchAgain(s, retries);
    if retries > 1 {
      TooMuchNoise(Attempt(s).0, noise[1..], retries - 1);
      assert noise[1..][retries - 2] == noise[retries - 1];
    } else {
      assert noise[1..] == [];
    }
  }

  lemma StatusOk(d: Noise, next: byte)
    ensures StatusOf(d, next).Ok? <==> Repeats(d, next)
    ensures !StatusOf(d, next).Eof? && !StatusOf(d, next).Cancel?
  {
  }
}
