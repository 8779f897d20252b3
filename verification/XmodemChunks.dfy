/** How a caller cuts his reads makes no difference. */
module XmodemChunks {
  import opened Crc
  import opened Line
  import opened Util
  import opened Xmodem
  import opened XmodemRuns

  lemma CopyTwice(s: Rx, m: nat, n: nat)
    requires Readable(s) && !s.atEof && m + n <= s.len
    ensures Copy(Copy(s, m), n) == Copy(s, m + n)
    ensures s.pkt[s.bufp..s.bufp + m] + s.pkt[s.bufp + m..s.bufp + m + n] == s.pkt[s.bufp..s.bufp + m + n]
  {
    hide Gives;
    var d, e := s.pkt[s.bufp..s.bufp + m], s.pkt[s.bufp + m..s.bufp + m + n];
    SliceOfSlice(s.pkt, s.bufp, m + n, m);
    GivesJoin(s.trace, d, e);
  }

  lemma GivesJoin(t: seq<Action>, d: seq<byte>, e: seq<byte>)
    ensures t + Gives(d) + Gives(e) == t + Gives(d + e)
  {
    assert Gives(d) + Gives(e) == Gives(d + e);
  }

  /** What `first`, continued by `second`, amounts to as one read. */
  function Then(first: Outcome, second: Outcome): Outcome {
    Outcome(second.s, first.data + second.data, if first.err.Some? then first.err else second.err)
  }

  /** A block in hand that outlasts the first of two reads. */
  lemma WithinBlock(s: Rx, a: nat, b: nat)
    requires Readable(s) && !s.atEof && a < s.len
    ensures var n := Min(a + b, s.len);
      Read(Copy(s, a), b).After(s.pkt[s.bufp..s.bufp + a])
      == Read(Copy(s, n), a + b - n).After(s.pkt[s.bufp..s.bufp + n])
  {
    hide Read, Gives, Refill;
    var n := Min(a + b, s.len);
    var c := Copy(s, a);
    if b > 0 {
      ReadStep(c, b);
      CopyTwice(s, a, n - a);
      var d, e := s.pkt[s.bufp..s.bufp + a], s.pkt[s.bufp + a..s.bufp + n];
      AfterTwice(Read(Copy(s, n), a + b - n), d, e);
    }
  }

  lemma AfterTwice(r: Outcome, d: seq<byte>, e: seq<byte>)
    ensures r.After(e).After(d) == r.After(d + e)
  {
    assert d + (e + r.data) == (d + e) + r.data;
  }

  /** Reading `a` bytes and then `b` bytes leaves the receiver in the same state, with the same
      bytes returned and the same bytes transmitted at the same points, as reading `a + b` bytes at
      once; and a read that fails would have failed with the same result had more been asked for. */
  lemma {:induction false} ChunkIndependence(s: Rx, a: nat, b: nat)
    requires Readable(s)
    ensures var first := Read(s, a);
      Read(s, a + b) == if first.Failed() then first else Then(first, Read(first.s, b))
    decreases |s.line|, a
  {
    hide Read, Refill, Copy;
    if s.atEof || a == 0 {
      ReadDone(s, a);
      var r := Read(s, b);
      assert [] + r.data == r.data;
      if s.atEof {
        ReadDone(s, b);
        ReadDone(s, a + b);
      }
    } else {
      ReadStep(s, a);
      ReadStep(s, a + b);
      var (s1, stat) := Refill(s);
      if stat != Ok {
        if s1.atEof {
          ReadDone(s1, b);
        }
      } else if s1.len <= a {
        ContinueBoth(s, s1, a, b);
      } else {
        WithinBlock(s1, a, b);
        FirstEndsInBlock(s1, a);
      }
    }
  }

  lemma FirstEndsInBlock(s: Rx, a: nat)
    requires Readable(s) && !s.atEof && a < s.len
    ensures Read(Copy(s, a), 0) == Outcome(Copy(s, a), [], None)
    ensures s.pkt[s.bufp..s.bufp + a] + [] == s.pkt[s.bufp..s.bufp + a]
  {
    ReadDone(Copy(s, a), 0);
  }

  /** A block in hand that both reads begin by emptying. */
  lemma {:induction false} ContinueBoth(s: Rx, s1: Rx, a: nat, b: nat)
    requires Readable(s) && !s.atEof && a > 0
    requires (s1, Ok) == Refill(s) && s1.len <= a
    ensures var d, c := s1.pkt[s1.bufp..s1.bufp + s1.len], Copy(s1, s1.len);
      var first := Read(c, a - s1.len).After(d);
      Read(c, a + b - s1.len).After(d) == if first.Failed() then first else Then(first, Read(first.s, b))
    decreases |s.line|, a, 0
  {
    hide Read, Refill;
    var n := s1.len;
    var d, c := s1.pkt[s1.bufp..s1.bufp + n], Copy(s1, n);
    ChunkIndependence(c, a - n, b);
    var r := Read(c, a - n);
    if !r.Failed() {
      assert d + (r.data + Read(r.s, b).data) == (d + r.data) + Read(r.s, b).data;
    }
  }

  function Sum(sizes: seq<nat>): nat {
    if sizes == [] then 0 else sizes[0] + Sum(sizes[1..])
  }

  /** However a request is cut into reads, the bytes returned, the final state and everything
      transmitted are those of one single read of the total size. */
  lemma {:induction false} AnyCutting(s: Rx, sizes: seq<nat>)
    requires Readable(s)
    ensures Run(s, sizes) == Read(s, Sum(sizes)).s
    ensures Returned(s, sizes) == Read(s, Sum(sizes)).data
    decreases |sizes|
  {
    hide Read;
    if sizes == [] {
      ReadDone(s, 0);
    } else {
      var r := Read(s, sizes[0]);
      ChunkIndependence(s, sizes[0], Sum(sizes[1..]));
      NotFailed(s, sizes[0]);
      if Readable(r.s) {
        AnyCutting(r.s, sizes[1..]);
      }
    }
  }
}
