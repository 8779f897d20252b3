/** Files on concrete lines: bytes that come in time, a sender that starts late, and a sender that starts
    again after a broken frame or one cut short. */
module XmodemLines {
  import opened Crc
  import opened Line
  import opened Util
  import opened Xmodem
  import opened XmodemTrace
  import opened XmodemFrame
  import opened XmodemNoise
  import opened XmodemFile

  // ----- Stray frames only -----

  predicate AllStray(next: byte, noise: seq<Noise>) {
    forall i :: 0 <= i < |noise| ==> noise[i].Stray? && StrayFrame(next, noise[i].frame)
  }

  function Wires(noise: seq<Noise>): seq<byte> {
    if noise == [] then [] else (if noise[0].Stray? then Wire(noise[0].frame) else []) + Wires(noise[1..])
  }

  /** All the bytes of a file with stray frames in between. */
  function FileBytes(items: seq<Item>, tail: seq<Noise>): seq<byte> {
    if items == [] then Wires(tail) + [EOT]
    else Wires(items[0].noise) + (Wire(items[0].block) + FileBytes(items[1..], tail))
  }

  /** Blocks are numbered from `next` on, with stray frames before each of them and before the end. */
  predicate FrameFile(next: byte, items: seq<Item>, tail: seq<Noise>)
    decreases |items|
  {
    if items == [] then AllStray(next, tail)
    else
      && AllStray(next, items[0].noise) && Block(next, items[0].block)
      && FrameFile(next + 1, items[1..], tail)
  }

  lemma {:induction false} SuffersFrames(line: Line, next: byte, noise: seq<Noise>, more: seq<byte>)
    requires AllStray(next, noise) && Delivers(line, Wires(noise) + more)
    ensures Suffers(line, next, noise) && Delivers(PassedAll(line, noise), more)
    decreases |noise|
  {
    hide Delivers, Advance, Wire, StrayFrame;
    if noise == [] {
      assert Wires(noise) + more == more;
    } else {
      var w, rest := Wire(noise[0].frame), Wires(noise[1..]) + more;
      assert Wires(noise) + more == w + rest;
      DeliversSplit(line, w, rest);
      SuffersFrames(Advance(line, |w|), next, noise[1..], more);
    }
  }

  /** A line that delivers all the bytes in time carries the file. */
  lemma {:induction false} CarriesFrames(line: Line, next: byte, items: seq<Item>, tail: seq<Noise>)
    requires FrameFile(next, items, tail) && Delivers(line, FileBytes(items, tail))
    ensures Carries(line, next, items, tail)
    decreases |items|
  {
    hide Delivers, Advance, Wire, AllStray, Block, Suffers, PassedAll, Wires;
    if items == [] {
      SuffersFrames(line, next, tail, [EOT]);
    } else {
      var w, more := Wire(items[0].block), FileBytes(items[1..], tail);
      SuffersFrames(line, next, items[0].noise, w + more);
      var rest := PassedAll(line, items[0].noise);
      DeliversSplit(rest, w, more);
      CarriesFrames(Advance(rest, |w|), next + 1, items[1..], tail);
    }
  }

  // ----- Noise in front of a file -----

  function FirstNoise(items: seq<Item>, tail: seq<Noise>): nat {
    if items == [] then |tail| else |items[0].noise|
  }

  function BeforeItems(noise: seq<Noise>, items: seq<Item>): seq<Item> {
    if items == [] then [] else [items[0].(noise := noise + items[0].noise)] + items[1..]
  }

  function BeforeTail(noise: seq<Noise>, items: seq<Item>, tail: seq<Noise>): seq<Noise> {
    if items == [] then noise + tail else tail
  }

  lemma {:induction false} SuffersJoin(line: Line, next: byte, a: seq<Noise>, b: seq<Noise>)
    requires Suffers(line, next, a) && Suffers(PassedAll(line, a), next, b)
    ensures Suffers(line, next, a + b) && PassedAll(line, a + b) == PassedAll(PassedAll(line, a), b)
    decreases |a|
  {
    hide Disturbs, Passed;
    if a == [] {
      assert a + b == b;
    } else {
      assert (a + b)[1..] == a[1..] + b;
      SuffersJoin(Passed(a[0], line), next, a[1..], b);
    }
  }

  lemma CarriesAfter(line: Line, next: byte, noise: seq<Noise>, items: seq<Item>, tail: seq<Noise>)
    requires Suffers(line, next, noise) && Carries(PassedAll(line, noise), next, items, tail)
    ensures Carries(line, next, BeforeItems(noise, items), BeforeTail(noise, items, tail))
    ensures Contents(BeforeItems(noise, items)) == Contents(items)
  {
    hide Suffers, PassedAll, Delivers, Advance, Wire, Block, Stripped;
    SuffersJoin(line, next, noise, if items == [] then tail else items[0].noise);
    assert items != [] ==> BeforeItems(noise, items)[1..] == items[1..];
  }

  lemma TolerableAfter(noise: seq<Noise>, items: seq<Item>, tail: seq<Noise>)
    ensures Tolerable(BeforeItems(noise, items), BeforeTail(noise, items, tail)) <==>
      |noise| + FirstNoise(items, tail) < MAX_RETRIES && Tolerable(items, tail)
  {
    var with := BeforeItems(noise, items);
    if items != [] {
      assert with[0].noise == noise + items[0].noise;
      assert forall i :: 1 <= i < |items| ==> with[i] == items[i];
      if Tolerable(with, tail) {
        assert |with[0].noise| < MAX_RETRIES;
        forall i | 0 <= i < |items|
          ensures |items[i].noise| < MAX_RETRIES
        {
          assert |with[i].noise| < MAX_RETRIES;
        }
      }
    }
  }

  /** A file with noise in front of it is received exactly if there are fewer than 200 pieces before
      the first block, counting those, and before every other one. */
  lemma ReceivedAfter(s: Rx, noise: seq<Noise>, items: seq<Item>, tail: seq<Noise>, size: int)
    requires Readable(s) && !s.atEof && s.len == 0 && Suffers(s.line, s.nextBlk, noise)
    requires Carries(PassedAll(s.line, noise), s.nextBlk, items, tail) && size > |Contents(items)|
    ensures var r := Read(s, size);
      r.data == Contents(items) && r.err == Some(Eof) <==>
        |noise| + FirstNoise(items, tail) < MAX_RETRIES && Tolerable(items, tail)
  {
    hide Read, Suffers, PassedAll, Carries, Contents, Tolerable;
    CarriesAfter(s.line, s.nextBlk, noise, items, tail);
    TolerableAfter(noise, items, tail);
    assert Pending(s) + Contents(items) == Contents(items);
    FileReceived(s, BeforeItems(noise, items), BeforeTail(noise, items, tail), size);
  }

  // ----- Silence -----

  /** How many polling intervals an expired header attempt takes. */
  const ATTEMPT_TICKS: nat := CHAR_TIMEOUT + EXIT_TICKS

  /** How many header attempts expire in a silence of `k` polling intervals. */
  function Expired(k: nat): nat {
    if k <= CHAR_TIMEOUT then 0 else 1 + (k - CHAR_TIMEOUT - 1) / ATTEMPT_TICKS
  }

  /** The longest silence that leaves an attempt, about 450 seconds. */
  lemma ExpiredLimit(k: nat)
    ensures Expired(k) < 200 <==> k <= 56_218_750
  {
    assert CHAR_TIMEOUT == 250000 && ATTEMPT_TICKS == 281250;
    if k > 250000 {
      var m := k - 250001;
      assert m / 281250 < 199 <==> m < 199 * 281250;
    }
  }

  lemma ExpiredStep(k: nat)
    requires k > CHAR_TIMEOUT
    ensures Expired(k) == 1 + if k >= ATTEMPT_TICKS then Expired(k - ATTEMPT_TICKS) else 0
  {
    assert CHAR_TIMEOUT == 250000 && ATTEMPT_TICKS == 281250;
    var m := k - 250001;
    assert m < 281250 ==> m / 281250 == 0;
    assert m >= 281250 ==> m / 281250 == 1 + (m - 281250) / 281250;
  }

  function Silences(n: nat): (r: seq<Noise>)
    ensures |r| == n
  {
    seq(n, _ => Silence([]))
  }

  lemma {:induction false} ElapseTicks(k: nat, line: Line, ticks: nat)
    requires Ready(line)
    ensures Elapse(Ticks(k) + line, ticks) ==
      if ticks <= k then Ticks(k - ticks) + line else Elapse(line, ticks - k)
    decreases k
  {
    var all := Ticks(k) + line;
    if k == 0 || ticks == 0 {
      assert Ticks(0) + line == line;
    } else {
      assert all[1..] == Ticks(k - 1) + line;
      ElapseTicks(k - 1, line, ticks - 1);
    }
  }

  /** A silence costs so many attempts, and none of the bytes behind it. */
  lemma {:induction false} SilenceThen(k: nat, line: Line, next: byte, bs: seq<byte>)
    requires Ready(line) && Delivers(line, bs)
    ensures var all, noise := Ticks(k) + line, Silences(Expired(k));
      Suffers(all, next, noise) && Delivers(PassedAll(all, noise), bs)
    decreases k
  {
    hide Delivers, Elapse;
    var all, noise := Ticks(k) + line, Silences(Expired(k));
    if k <= CHAR_TIMEOUT {
      DeliversAfterPause(k, line, bs);
    } else {
      assert noise[1..] == Silences(Expired(k) - 1);
      SilenceDisturbs(k, line, next);
      ElapseTicks(k - CHAR_TIMEOUT, line, EXIT_TICKS);
      ExpiredStep(k);
      if k >= ATTEMPT_TICKS {
        SilenceThen(k - ATTEMPT_TICKS, line, next, bs);
      } else {
        DeliversLater(line, ATTEMPT_TICKS - k, bs);
      }
    }
  }

  lemma SilenceDisturbs(k: nat, line: Line, next: byte)
    requires k > CHAR_TIMEOUT
    ensures var all := Ticks(k) + line;
      && Disturbs(Silence([]), all, next)
      && Passed(Silence([]), all) == Elapse(Ticks(k - CHAR_TIMEOUT) + line, EXIT_TICKS)
  {
    var all := Ticks(k) + line;
    assert all[CHAR_TIMEOUT..] == Ticks(k - CHAR_TIMEOUT) + line;
    assert Advance(all, 0) == all;
  }

  /** A file whose sender starts after any silence is received exactly if the attempts that expire
      before it starts leave one for its first block. */
  lemma LateStart(s: Rx, k: nat, line: Line, items: seq<Item>, tail: seq<Noise>, size: int)
    requires Readable(s) && !s.atEof && s.len == 0 && s.line == Ticks(k) + line && Ready(line)
    requires FrameFile(s.nextBlk, items, tail) && Delivers(line, FileBytes(items, tail))
    requires size > |Contents(items)|
    ensures var r := Read(s, size);
      r.data == Contents(items) && r.err == Some(Eof) <==>
        Expired(k) + FirstNoise(items, tail) < MAX_RETRIES && Tolerable(items, tail)
  {
    hide Read, Suffers, PassedAll, Carries, Contents, Tolerable, Delivers, FileBytes, FrameFile;
    var noise := Silences(Expired(k));
    SilenceThen(k, line, s.nextBlk, FileBytes(items, tail));
    CarriesFrames(PassedAll(s.line, noise), s.nextBlk, items, tail);
    ReceivedAfter(s, noise, items, tail, size);
  }

  // ----- Starting again -----

  /** What is left of the line after one piece of noise is a silence and then a file. */
  lemma StartsAgain(s: Rx, d: Noise, k: nat, line: Line, items: seq<Item>, tail: seq<Noise>, size: int)
    requires Readable(s) && !s.atEof && s.len == 0 && Disturbs(d, s.line, s.nextBlk)
    requires Passed(d, s.line) == Ticks(k) + line && Ready(line)
    requires FrameFile(s.nextBlk, items, tail) && Delivers(line, FileBytes(items, tail))
    requires size > |Contents(items)|
    ensures var r := Read(s, size);
      r.data == Contents(items) && r.err == Some(Eof) <==>
        1 + Expired(k) + FirstNoise(items, tail) < MAX_RETRIES && Tolerable(items, tail)
  {
    var rest, noise := Ticks(k) + line, Silences(Expired(k));
    var all := [d] + noise;
    assert all[1..] == noise;
    hide Read, Carries, Contents, Tolerable, Delivers, FileBytes, FrameFile, Disturbs, Passed;
    SilenceThen(k, line, s.nextBlk, FileBytes(items, tail));
    CarriesFrames(PassedAll(rest, noise), s.nextBlk, items, tail);
    ReceivedAfter(s, all, items, tail, size);
  }

  /** After a frame with a broken number the sender can start again: the bytes that follow without a
      pause are discarded, and nothing behind the pause is. */
  lemma AgainAfterBroken(s: Rx, f: Frame, swallowed: seq<byte>, k: nat, line: Line,
      items: seq<Item>, tail: seq<Noise>, size: int)
    requires Readable(s) && !s.atEof && s.len == 0
    requires Shaped(f) && !Complementary(f.blk, f.cblk) && Delivers(s.line, Wire(f))
    requires Advance(s.line, |Wire(f)|) == Events(swallowed) + (Ticks(k) + line) && k > 0 && Ready(line)
    requires FrameFile(s.nextBlk, items, tail) && Delivers(line, FileBytes(items, tail))
    requires size > |Contents(items)|
    ensures var r := Read(s, size);
      r.data == Contents(items) && r.err == Some(Eof) <==>
        1 + Expired(k) + FirstNoise(items, tail) < MAX_RETRIES && Tolerable(items, tail)
  {
    hide Read, Contents, Tolerable, Delivers, FileBytes, FrameFile, Advance, Wire, Complementary;
    var rest := Ticks(k) + line;
    var all := Events(swallowed) + rest;
    assert all[..|swallowed|] == Events(swallowed) && all[|swallowed|..] == rest && rest[0] == Tick;
    StartsAgain(s, Broken(f, swallowed), k, line, items, tail, size);
  }

  /** And after a frame that was cut short, once the wait for its next byte has expired. */
  lemma AgainAfterShort(s: Rx, f: Frame, n: nat, k: nat, line: Line,
      items: seq<Item>, tail: seq<Noise>, size: int)
    requires Readable(s) && !s.atEof && s.len == 0
    requires Shaped(f) && 1 <= n < |Wire(f)| && Delivers(s.line, Wire(f)[..n])
    requires Advance(s.line, n) == Ticks(k) + line && k > CHAR_TIMEOUT && Ready(line)
    requires FrameFile(s.nextBlk, items, tail) && Delivers(line, FileBytes(items, tail))
    requires size > |Contents(items)|
    ensures var r := Read(s, size);
      r.data == Contents(items) && r.err == Some(Eof) <==>
        1 + Expired(k - CHAR_TIMEOUT) + FirstNoise(items, tail) < MAX_RETRIES && Tolerable(items, tail)
  {
    hide Read, Contents, Tolerable, Delivers, FileBytes, FrameFile, Advance, Wire;
    var all := Ticks(k) + line;
    assert all[CHAR_TIMEOUT..] == Ticks(k - CHAR_TIMEOUT) + line;
    StartsAgain(s, Short(f, n), k - CHAR_TIMEOUT, line, items, tail, size);
  }
}
