/** The serial line as the receiver sees it through `tstc`, `getc` and `udelay`
    (demo-dh/drivers/xyzmodem.c lines 37-74).

    A line is the finite sequence of things still to happen, one per polling interval:
    either a byte has arrived (`tstc` is true) or an interval passes in which none has.
    After the last event the line is silent forever.  */
module Line {
  import opened Crc

  datatype Event = Byte(b: byte) | Tick

  type Line = seq<Event>

  const POLL_INTERVAL := 8
  const CHAR_TIMEOUT := 2000000 / POLL_INTERVAL
  const EXIT_TIMEOUT := 250000

  predicate Ready(line: Line) { line != [] && line[0].Byte? }

  /** One polling delay on a line with nothing to read. */
  function Pass(line: Line): (rest: Line)
    ensures |rest| <= |line|
  {
    if line == [] then [] else line[1..]
  }

  /** The wait of `xyz_getc_timeout` after `counter` delays. */
  function Await(line: Line, counter: nat): (rest: Line)
    ensures |rest| <= |line|
    decreases CHAR_TIMEOUT - counter, |line|
  {
    if !Ready(line) && counter < CHAR_TIMEOUT then Await(Pass(line), counter + 1) else line
  }

  datatype Reply = Got(b: byte, rest: Line) | TimedOut(rest: Line)

  /** `xyz_getc_timeout`. */
  function Getc(line: Line): (r: Reply)
    ensures |r.rest| <= |line|
    ensures r.Got? ==> |r.rest| < |line|
  {
    var ready := Await(line, 0);
    if Ready(ready) then Got(ready[0].b, ready[1..]) else TimedOut(ready)
  }

  /** `xyz_flush`: discard what is there to be read now. */
  function Flush(line: Line): (rest: Line)
    ensures |rest| <= |line|
  {
    if Ready(line) then Flush(line[1..]) else line
  }

  /** A delay of `ticks` polling intervals during which nothing is read: bytes that arrive
      meanwhile stay to be read. */
  function Elapse(line: Line, ticks: nat): (rest: Line)
    ensures |rest| <= |line|
  {
    if line == [] || ticks == 0 then line
    else if line[0].Tick? then Elapse(line[1..], ticks - 1)
    else [line[0]] + Elapse(line[1..], ticks)
  }

  /** `k` polling intervals without a byte. */
  function Ticks(k: nat): (t: Line)
    ensures |t| == k
  {
    seq(k, _ => Tick)
  }

  lemma {:induction false} AwaitTicks(k: nat, line: Line, counter: nat)
    requires counter <= CHAR_TIMEOUT && Ready(line)
    ensures Await(Ticks(k) + line, counter) ==
      if counter + k <= CHAR_TIMEOUT then line else Ticks(counter + k - CHAR_TIMEOUT) + line
    decreases k
  {
    if k == 0 {
      assert Ticks(0) + line == line;
    } else {
      assert Pass(Ticks(k) + line) == Ticks(k - 1) + line;
      if counter < CHAR_TIMEOUT {
        AwaitTicks(k - 1, line, counter + 1);
      }
    }
  }

  /** A byte is received exactly if it comes within 250000 polling intervals; otherwise it stays on
      the line, nearer by as many intervals. */
  lemma GetcInTime(k: nat, b: byte, rest: Line)
    ensures Getc(Ticks(k) + ([Byte(b)] + rest)) ==
      if k <= CHAR_TIMEOUT then Got(b, rest) else TimedOut(Ticks(k - CHAR_TIMEOUT) + ([Byte(b)] + rest))
  {
    var line := [Byte(b)] + rest;
    AwaitTicks(k, line, 0);
    assert line[1..] == rest;
  }

  // ----- Which bytes a line holds -----

  function Bytes(line: Line): seq<byte> {
    if line == [] then []
    else (if line[0].Byte? then [line[0].b] else []) + Bytes(line[1..])
  }

  /** `b` is what is left of `a` after something was taken from its front. */
  predicate IsSuffix(b: seq<byte>, a: seq<byte>) {
    |b| <= |a| && a[|a| - |b|..] == b
  }

  lemma SuffixTrans(c: seq<byte>, b: seq<byte>, a: seq<byte>)
    requires IsSuffix(c, b) && IsSuffix(b, a)
    ensures IsSuffix(c, a)
  {
    assert a[|a| - |c|..] == a[|a| - |b|..][|b| - |c|..];
  }

  lemma {:induction false} AwaitBytes(line: Line, counter: nat)
    ensures Bytes(Await(line, counter)) == Bytes(line)
    decreases CHAR_TIMEOUT - counter, |line|
  {
    if !Ready(line) && counter < CHAR_TIMEOUT {
      AwaitBytes(Pass(line), counter + 1);
    }
  }

  /** Waiting never loses a byte: a reply hands over the first byte of the line, and an expired
      wait leaves all bytes in place. */
  lemma GetcBytes(line: Line)
    ensures var r := Getc(line);
            Bytes(line) == (if r.Got? then [r.b] else []) + Bytes(r.rest)
  {
    AwaitBytes(line, 0);
  }

  lemma {:induction false} FlushBytes(line: Line)
    ensures IsSuffix(Bytes(Flush(line)), Bytes(line))
  {
    if Ready(line) {
      FlushBytes(line[1..]);
    }
  }

  /** Bytes that arrive without a pause. */
  function Events(bs: seq<byte>): (line: Line)
    ensures |line| == |bs|
  {
    seq(|bs|, i requires 0 <= i < |bs| => Byte(bs[i]))
  }

  /** Flushing takes exactly the bytes before the first pause. */
  lemma {:induction false} FlushExact(bs: seq<byte>, rest: Line)
    requires !Ready(rest)
    ensures Flush(Events(bs) + rest) == rest
  {
    var line := Events(bs) + rest;
    if bs == [] {
      assert line == rest;
    } else {
      FlushExact(bs[1..], rest);
      assert line[1..] == Events(bs[1..]) + rest;
    }
  }

  /** No byte comes before the next wait expires. */
  predicate Silent(line: Line) {
    forall i :: 0 <= i < |line| && i <= CHAR_TIMEOUT ==> line[i].Tick?
  }

  /** What is left of a silent line after a wait. */
  function AfterWait(line: Line): Line {
    if |line| < CHAR_TIMEOUT then [] else line[CHAR_TIMEOUT..]
  }

  lemma {:induction false} SilentAwait(line: Line, counter: nat)
    requires counter <= CHAR_TIMEOUT
    requires forall i :: 0 <= i < |line| && i <= CHAR_TIMEOUT - counter ==> line[i].Tick?
    ensures Await(line, counter) == (if |line| < CHAR_TIMEOUT - counter then [] else line[CHAR_TIMEOUT - counter..])
    ensures !Ready(Await(line, counter))
    decreases CHAR_TIMEOUT - counter
  {
    if counter < CHAR_TIMEOUT {
      SilentAwait(Pass(line), counter + 1);
    }
  }

  /** A wait on a silent line expires, and takes the pauses of its own length. */
  lemma SilentGetc(line: Line)
    requires Silent(line)
    ensures Getc(line) == TimedOut(AfterWait(line)) && !Ready(AfterWait(line))
  {
    SilentAwait(line, 0);
  }

  /** A byte received on a line is received on it after a delay, with a delay of what follows. */
  lemma {:induction false} GetcElapse(line: Line, ticks: nat, counter: nat) returns (later: nat)
    requires Ready(Await(line, counter)) && counter <= CHAR_TIMEOUT
    ensures var r, e := Await(line, counter), Await(Elapse(line, ticks), counter);
      Ready(e) && e[0] == r[0] && e[1..] == Elapse(r[1..], later)
    decreases |line|
  {
    if line == [] || ticks == 0 {
      later := 0;
    } else if line[0].Tick? {
      later := GetcElapse(line[1..], ticks - 1, counter + 1);
      AwaitSooner(Elapse(line, ticks), counter);
    } else {
      later := ticks;
    }
  }

  lemma {:induction false} AwaitSooner(line: Line, counter: nat)
    requires counter < CHAR_TIMEOUT && Ready(Await(line, counter + 1))
    ensures Await(line, counter) == Await(line, counter + 1)
    decreases CHAR_TIMEOUT - counter
  {
    if !Ready(line) {
      if counter + 1 < CHAR_TIMEOUT {
        AwaitSooner(Pass(line), counter + 1);
      }
    }
  }

  lemma {:induction false} ElapseBytes(line: Line, ticks: nat)
    ensures Bytes(Elapse(line, ticks)) == Bytes(line)
  {
    if line == [] || ticks == 0 {
    } else if line[0].Tick? {
      ElapseBytes(line[1..], ticks - 1);
    } else {
      ElapseBytes(line[1..], ticks);
      assert Elapse(line, ticks)[1..] == Elapse(line[1..], ticks);
    }
  }

  lemma SliceOfSlice<T>(p: seq<T>, from: nat, len: nat, n: nat)
    requires from + len <= |p| && n <= len
    ensures p[from..from + len][n..] == p[from + n..from + len]
    ensures p[from..from + len][..n] == p[from..from + n]
    ensures p[from..from + n] + p[from + n..from + len] == p[from..from + len]
  {
  }

  // ----- Lines that deliver given bytes in time -----

  /** The line after `n` successful reads (any line will do where a read would fail). */
  function Advance(line: Line, n: nat): Line
    decreases n
  {
    if n == 0 then line else Advance(Getc(line).rest, n - 1)
  }

  /** The next |bs| reads succeed and return `bs`, with any pauses shorter than the timeout. */
  predicate Delivers(line: Line, bs: seq<byte>)
    decreases |bs|
  {
    bs == [] || (Getc(line).Got? && Getc(line).b == bs[0] && Delivers(Getc(line).rest, bs[1..]))
  }

  lemma {:induction false} DeliversSplit(line: Line, a: seq<byte>, b: seq<byte>)
    ensures Delivers(line, a + b) <==> Delivers(line, a) && Delivers(Advance(line, |a|), b)
    decreases |a|
  {
    if a == [] {
      assert a + b == b;
    } else {
      assert (a + b)[1..] == a[1..] + b;
      DeliversSplit(Getc(line).rest, a[1..], b);
    }
  }

  lemma {:induction false} AdvanceAdd(line: Line, m: nat, n: nat)
    ensures Advance(Advance(line, m), n) == Advance(line, m + n)
    decreases m
  {
    if m > 0 {
      AdvanceAdd(Getc(line).rest, m - 1, n);
    }
  }

  /** Bytes that follow one another without a pause are delivered. */
  lemma {:induction false} BackToBack(bs: seq<byte>, rest: Line)
    ensures Delivers(Events(bs) + rest, bs) && Advance(Events(bs) + rest, |bs|) == rest
  {
    var line := Events(bs) + rest;
    if bs == [] {
      assert line == rest;
    } else {
      assert Ready(line) && Await(line, 0) == line;
      BackToBack(bs[1..], rest);
      assert line[1..] == Events(bs[1..]) + rest;
    }
  }

  /** Delays lose nothing of what a line delivers. */
  lemma {:induction false} DeliversLater(line: Line, ticks: nat, bs: seq<byte>)
    requires Delivers(line, bs)
    ensures Delivers(Elapse(line, ticks), bs)
    decreases |bs|
  {
    if bs != [] {
      var later := GetcElapse(line, ticks, 0);
      DeliversLater(Getc(line).rest, later, bs[1..]);
    }
  }

  /** A pause no longer than a wait may come before them. */
  lemma DeliversAfterPause(k: nat, line: Line, bs: seq<byte>)
    requires k <= CHAR_TIMEOUT && Ready(line) && Delivers(line, bs)
    ensures Delivers(Ticks(k) + line, bs)
  {
    AwaitTicks(k, line, 0);
  }
}
