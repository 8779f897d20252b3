/** The receiver on a line that carries a file: blocks 1, 2, 3, ... and the end-of-file byte, with any
    amounts of noise before each of them; and when a read gets exactly the file. */
module XmodemFile {
  import opened Crc
  import opened Line
  import opened Util
  import opened Xmodem
  import opened XmodemTrace
  import opened XmodemFrame
  import opened XmodemNoise

  /** A block and the noise that comes before it. */
  datatype Item = Item(noise: seq<Noise>, block: Frame)

  /** The line carries the blocks, numbered from `next` on, and the end of the file, with this noise
      before each of them. */
  predicate Carries(line: Line, next: byte, items: seq<Item>, tail: seq<Noise>)
    decreases |items|
  {
    if items == [] then
      Suffers(line, next, tail) && Delivers(PassedAll(line, tail), [EOT])
    else
      var noise, f := items[0].noise, items[0].block;
      var rest := PassedAll(line, noise);
      && Suffers(line, next, noise) && Block(next, f) && Delivers(rest, Wire(f))
      && Carries(Advance(rest, |Wire(f)|), next + 1, items[1..], tail)
  }

  /** There are at most 199 pieces of noise in each of these places. */
  predicate Tolerable(items: seq<Item>, tail: seq<Noise>) {
    |tail| < MAX_RETRIES && forall i :: 0 <= i < |items| ==> |items[i].noise| < MAX_RETRIES
  }

  function Contents(items: seq<Item>): seq<byte> {
    if items == [] then [] else Stripped(items[0].block.data) + Contents(items[1..])
  }

  // ----- Reading a file -----

  lemma RefillBlock(s: Rx, items: seq<Item>, tail: seq<Noise>)
    requires Readable(s) && !s.atEof && s.len == 0 && items != [] && |items[0].noise| < MAX_RETRIES
    requires Carries(s.line, s.nextBlk, items, tail)
    ensures var (r, stat) := Refill(s);
      && stat.Ok? && Readable(r) && !r.atEof && Pending(r) == Stripped(items[0].block.data)
      && Carries(r.line, r.nextBlk, items[1..], tail) && |r.line| < |s.line|
      && Pending(s) + Contents(items) == Pending(r) + Contents(items[1..])
  {
    hide Fetch, Delivers, Advance, Wire, Suffers, PassedAll, Block, Stripped;
    FetchThrough(s, items[0].noise, items[0].block, MAX_RETRIES);
    assert Pending(s) == [];
  }

  lemma RefillAtEnd(s: Rx, tail: seq<Noise>)
    requires Readable(s) && !s.atEof && s.len == 0 && |tail| < MAX_RETRIES
    requires Carries(s.line, s.nextBlk, [], tail)
    ensures var (r, stat) := Refill(s); stat.Eof? && r.atEof
    ensures Pending(s) + Contents([]) == []
  {
    hide Fetch, Delivers, Advance, Wire, Suffers, PassedAll;
    FetchToEnd(s, tail, MAX_RETRIES);
  }

  /** The first `n` bytes of `data`, or all of them. */
  function Prefix(data: seq<byte>, n: int): seq<byte> {
    if n <= 0 then [] else if n < |data| then data[..n] else data
  }

  lemma PrefixAfter(d: seq<byte>, more: seq<byte>, n: nat, size: int)
    requires n == Min(size, |d|) && size > 0
    ensures Prefix(d + more, size) == d[..n] + Prefix(d[n..] + more, size - n)
  {
    if n == |d| {
      assert d[n..] + more == more && d[..n] == d;
    } else {
      assert d[..n] + [] == d[..n];
    }
  }

  /** On a line that carries a file with tolerable noise, a read returns exactly the next bytes of its
      contents, and reports the end of the file when asked for more than there is. */
  lemma {:induction false} ReadFile(s: Rx, items: seq<Item>, tail: seq<Noise>, size: int)
    requires Readable(s) && !s.atEof
    requires Carries(s.line, s.nextBlk, items, tail) && Tolerable(items, tail)
    ensures var r, all := Read(s, size), Pending(s) + Contents(items);
      && r.data == Prefix(all, size)
      && r.err == (if size > |all| then Some(Eof) else None)
    decreases |s.line|, size
  {
    hide Read, Refill, Carries, Pending, Contents;
    if size <= 0 {
      ReadDone(s, size);
    } else {
      ReadStep(s, size);
      if s.len == 0 && items == [] {
        RefillAtEnd(s, tail);
      } else {
        var items' := items;
        var s1 := Refill(s).0;
        if s.len == 0 {
          RefillBlock(s, items, tail);
          items' := items[1..];
        }
        ReadOn(s1, items', tail, size, |s.line|);
      }
    }
  }

  lemma {:induction false} ReadOn(s: Rx, items: seq<Item>, tail: seq<Noise>, size: int, before: nat)
    requires Readable(s) && !s.atEof && size > 0
    requires |s.line| < before || (|s.line| == before && s.len > 0)
    requires Carries(s.line, s.nextBlk, items, tail) && Tolerable(items, tail)
    ensures var n := Min(size, s.len);
      var r, all := Read(Copy(s, n), size - n).After(s.pkt[s.bufp..s.bufp + n]), Pending(s) + Contents(items);
      && r.data == Prefix(all, size)
      && r.err == (if size > |all| then Some(Eof) else None)
    decreases before, size, 0
  {
    hide Read, Carries, Tolerable, Copy, Pending, Contents, Prefix;
    var n := Min(size, s.len);
    CopyFacts(s, n);
    ReadFile(Copy(s, n), items, tail, size - n);
    PrefixAfter(Pending(s), Contents(items), n, size);
  }

  lemma CopyFacts(s: Rx, n: nat)
    requires Readable(s) && !s.atEof && n <= s.len
    ensures var c := Copy(s, n);
      && c.line == s.line && c.nextBlk == s.nextBlk && !c.atEof && c.len == s.len - n
      && Pending(c) == Pending(s)[n..] && s.pkt[s.bufp..s.bufp + n] == Pending(s)[..n]
    ensures |Pending(s)| == s.len
  {
    SliceOfSlice(s.pkt, s.bufp, s.len, n);
  }

  /** Noise transparency: two lines that carry the same blocks, with whatever tolerable noise
      between them, read the same. */
  lemma NoiseTransparent(s: Rx, t: Rx, items: seq<Item>, tail: seq<Noise>,
      others: seq<Item>, end: seq<Noise>, size: int)
    requires |s.pkt| >= BIG && |t.pkt| >= BIG
    requires Carries(s.line, 1, items, tail) && Tolerable(items, tail)
    requires Carries(t.line, 1, others, end) && Tolerable(others, end)
    requires |others| == |items| && forall i :: 0 <= i < |items| ==> others[i].block == items[i].block
    ensures Readable(Open(s)) && Readable(Open(t))
    ensures var one, other := Read(Open(s), size), Read(Open(t), size);
      one.data == other.data == Prefix(Contents(items), size) && one.err == other.err
  {
    hide Read, Carries, Tolerable;
    SameContents(items, others);
    assert [] + Contents(items) == Contents(items);
    ReadFile(Open(s), items, tail, size);
    ReadFile(Open(t), others, end, size);
  }

  lemma {:induction false} SameContents(items: seq<Item>, others: seq<Item>)
    requires |others| == |items| && forall i :: 0 <= i < |items| ==> others[i].block == items[i].block
    ensures Contents(others) == Contents(items)
    decreases |items|
  {
    if items != [] {
      SameContents(items[1..], others[1..]);
    }
  }

  // ----- Too much noise -----

  lemma {:induction false} SuffersSplit(line: Line, next: byte, noise: seq<Noise>, n: nat)
    requires n <= |noise| && Suffers(line, next, noise)
    ensures Suffers(line, next, noise[..n]) && Suffers(PassedAll(line, noise[..n]), next, noise[n..])
    ensures PassedAll(PassedAll(line, noise[..n]), noise[n..]) == PassedAll(line, noise)
    decreases n
  {
    hide Disturbs, Passed;
    if n > 0 {
      SuffersSplit(Passed(noise[0], line), next, noise[1..], n - 1);
      assert noise[..n][1..] == noise[1..][..n - 1];
      assert noise[1..][n - 1..] == noise[n..];
    } else {
      assert noise[n..] == noise;
    }
  }

  /** The file after the first `n` pieces of noise. */
  function Later(items: seq<Item>, n: nat): seq<Item>
    requires items != [] && n <= |items[0].noise|
  {
    [items[0].(noise := items[0].noise[n..])] + items[1..]
  }

  lemma LaterFile(line: Line, next: byte, items: seq<Item>, tail: seq<Noise>, n: nat)
    requires items != [] && n <= |items[0].noise| && Carries(line, next, items, tail)
    ensures Suffers(line, next, items[0].noise[..n])
    ensures Carries(PassedAll(line, items[0].noise[..n]), next, Later(items, n), tail)
    ensures Contents(Later(items, n)) == Contents(items)
  {
    hide Wire, Advance, Delivers, Suffers, PassedAll, Block, Stripped;
    assert Later(items, n)[1..] == items[1..];
    SuffersSplit(line, next, items[0].noise, n);
  }

  lemma LaterEnd(line: Line, next: byte, tail: seq<Noise>, n: nat)
    requires n <= |tail| && Carries(line, next, [], tail)
    ensures Suffers(line, next, tail[..n])
    ensures Carries(PassedAll(line, tail[..n]), next, [], tail[n..])
  {
    hide Delivers, Suffers, PassedAll;
    SuffersSplit(line, next, tail, n);
  }

  /** 200 pieces of noise where a block is due: the read fails, or goes on with a block too many. */
  lemma RefillOverrun(s: Rx, noise: seq<Noise>)
    requires Readable(s) && !s.atEof && s.len == 0
    requires |noise| == MAX_RETRIES && Suffers(s.line, s.nextBlk, noise)
    ensures var (r, stat) := Refill(s);
      && !stat.Eof?
      && (stat.Ok? ==>
            && Readable(r) && !r.atEof && |Pending(r)| >= SMALL && |r.line| < |s.line|
            && r.nextBlk == s.nextBlk && r.line == PassedAll(s.line, noise))
  {
    hide Fetch, Disturbs, PassedAll, GoodChecksum, IsPrevious;
    var last := noise[MAX_RETRIES - 1];
    TooMuchNoise(s, noise, MAX_RETRIES);
    StatusOk(last, s.nextBlk);
    SuffersSplit(s.line, s.nextBlk, noise, MAX_RETRIES - 1);
    LastShaped(PassedAll(s.line, noise[..MAX_RETRIES - 1]), s.nextBlk, last);
    assert noise[MAX_RETRIES - 1..] == [last];
  }

  lemma LastShaped(line: Line, next: byte, d: Noise)
    requires Suffers(line, next, [d])
    ensures d.Stray? ==> |d.frame.data| >= SMALL
  {
    assert [d][0] == d;
  }

  /** What a read that reports the end of the file returns: the whole contents and, if there are 200 pieces
      of noise or more in some place, more than that. */
  lemma {:induction false} EndMeansAll(s: Rx, items: seq<Item>, tail: seq<Noise>, size: int)
    requires Readable(s) && !s.atEof
    requires Carries(s.line, s.nextBlk, items, tail)
    ensures Read(s, size).err == Some(Eof) ==>
      |Read(s, size).data| >= |Pending(s) + Contents(items)| + One(!Tolerable(items, tail))
    decreases |s.line|, size, 1
  {
    hide Read, Refill, Carries, Contents, Pending, Tolerable;
    if size <= 0 {
      ReadDone(s, size);
    } else if Tolerable(items, tail) {
      ReadFile(s, items, tail, size);
    } else {
      ReadStep(s, size);
      var (s1, stat) := Refill(s);
      var items', tail', extra := Onward(s, items, tail);
      if stat == Ok {
        EndMeansAllOn(s1, items', tail', size, |s.line|);
      }
    }
  }

  lemma {:induction false} EndMeansAllOn(s: Rx, items: seq<Item>, tail: seq<Noise>, size: int, before: nat)
    requires Readable(s) && !s.atEof && size > 0
    requires |s.line| < before || (|s.line| == before && s.len > 0)
    requires Carries(s.line, s.nextBlk, items, tail)
    ensures var n := Min(size, s.len);
      var r := Read(Copy(s, n), size - n).After(s.pkt[s.bufp..s.bufp + n]);
      r.err == Some(Eof) ==>
        |r.data| >= |Pending(s) + Contents(items)| + One(!Tolerable(items, tail))
    decreases before, size, 0
  {
    hide Read, Carries, Copy, Pending, Contents, Tolerable;
    var n := Min(size, s.len);
    CopyFacts(s, n);
    EndMeansAll(Copy(s, n), items, tail, size - n);
  }

  /** What is left of a file after a refill, and how many bytes too many came with it. */
  lemma Onward(s: Rx, items: seq<Item>, tail: seq<Noise>) returns (items': seq<Item>, tail': seq<Noise>, extra: nat)
    requires Readable(s) && !s.atEof
    requires Carries(s.line, s.nextBlk, items, tail) && !Tolerable(items, tail)
    ensures !Refill(s).1.Eof?
    ensures Refill(s).1.Ok? ==>
      var r := Refill(s).0;
      && Readable(r) && !r.atEof && (|r.line| < |s.line| || (r == s && s.len > 0))
      && Carries(r.line, r.nextBlk, items', tail')
      && |Pending(r) + Contents(items')| == |Pending(s) + Contents(items)| + extra
      && (extra == 0 ==> !Tolerable(items', tail'))
  {
    hide Refill, Carries;
    items', tail', extra := items, tail, 0;
    var r := Refill(s).0;
    if s.len > 0 {
      RefillNothing(s);
    } else if items == [] {
      LaterEnd(s.line, s.nextBlk, tail, MAX_RETRIES);
      tail' := tail[MAX_RETRIES..];
      RefillOverrun(s, tail[..MAX_RETRIES]);
      if Refill(s).1.Ok? { extra := |Pending(r)|; }
    } else if |items[0].noise| >= MAX_RETRIES {
      LaterFile(s.line, s.nextBlk, items, tail, MAX_RETRIES);
      items' := Later(items, MAX_RETRIES);
      RefillOverrun(s, items[0].noise[..MAX_RETRIES]);
      if Refill(s).1.Ok? { extra := |Pending(r)|; }
    } else {
      RefillBlock(s, items, tail);
      items' := items[1..];
    }
  }

  lemma RefillNothing(s: Rx)
    requires Readable(s) && !s.atEof && s.len > 0
    ensures Refill(s) == (s, Ok)
  {
  }

  /** The file is received: a read of more bytes than the file holds returns exactly its contents and
      reports its end, if and only if there are fewer than 200 pieces of noise before each of its
      blocks and before its end. */
  lemma FileReceived(s: Rx, items: seq<Item>, tail: seq<Noise>, size: int)
    requires Readable(s) && !s.atEof
    requires Carries(s.line, s.nextBlk, items, tail)
    requires size > |Pending(s) + Contents(items)|
    ensures var r := Read(s, size);
      r.data == Pending(s) + Contents(items) && r.err == Some(Eof) <==> Tolerable(items, tail)
  {
    hide Read, Carries, Pending, Contents, Tolerable;
    EndMeansAll(s, items, tail, size);
    if Tolerable(items, tail) {
      ReadFile(s, items, tail, size);
    }
  }

  // ----- Padding -----

  /** The contents are the data of the blocks when no block ends in three pad bytes. */
  lemma {:induction false} ContentsUnpadded(items: seq<Item>)
    requires forall i :: 0 <= i < |items| ==> !EndsInPads(items[i].block.data)
    ensures Contents(items) == Framed(items)
  {
    if items != [] {
      ContentsUnpadded(items[1..]);
    }
  }

  function Framed(items: seq<Item>): seq<byte> {
    if items == [] then [] else items[0].block.data + Framed(items[1..])
  }

  /** And pad removal changes a block exactly when it does. */
  lemma StrippedShorter(data: seq<byte>)
    ensures Stripped(data) == data <==> !EndsInPads(data)
  {
  }

  function Pads(n: nat): (r: seq<byte>)
    ensures |r| == n
  {
    seq(n, _ => PAD)
  }

  /** Text that does not end in a pad byte. */
  predicate Unpadded(d: seq<byte>) { d == [] || d[|d| - 1] != PAD }

  lemma {:induction false} DropPadsExact(d: seq<byte>, n: nat)
    requires Unpadded(d)
    ensures DropPads(d + Pads(n)) == d
  {
    var all := d + Pads(n);
    if n == 0 {
      assert all == d;
    } else {
      DropPadsExact(d, n - 1);
      assert all[..|all| - 1] == d + Pads(n - 1);
      assert all[|all| - 1] == PAD;
    }
  }

  /** Padding is removed exactly, if it is three bytes or more; less is taken for data. */
  lemma StrippedPadded(d: seq<byte>, n: nat)
    requires Unpadded(d)
    ensures Stripped(d + Pads(n)) == if n >= 3 then d else d + Pads(n)
  {
    DropPadsExact(d, n);
    var all := d + Pads(n);
    if n >= 3 {
      assert all[|all| - 1] == all[|all| - 2] == all[|all| - 3] == PAD;
    } else if d != [] {
      assert all[|d| - 1] == d[|d| - 1] != PAD;
    }
  }

  /** A text cut into blocks, the last of them filled up with `n` pad bytes. */
  predicate Blocks(items: seq<Item>, text: seq<byte>, n: nat) {
    && items != [] && Framed(items) == text + Pads(n)
    && n <= |items[|items| - 1].block.data|
    && (forall i :: 0 <= i < |items| - 1 ==> !EndsInPads(items[i].block.data))
  }

  /** The contents of a padded file are the text itself. */
  lemma {:induction false} ContentsPadded(items: seq<Item>, text: seq<byte>, n: nat)
    requires Unpadded(text) && Blocks(items, text, n)
    ensures Contents(items) == if n >= 3 then text else text + Pads(n)
    decreases |items|
  {
    var d, rest := items[0].block.data, items[1..];
    if rest == [] {
      assert Framed(rest) == [] && Contents(rest) == [];
      assert d == d + Framed(rest) == text + Pads(n);
      StrippedPadded(text, n);
    } else {
      FramedLast(rest);
      var more := RestPadded(d, Framed(rest), text, n);
      assert rest[|rest| - 1] == items[|items| - 1];
      hide Framed, Unpadded, EndsInPads;
      ContentsPadded(rest, more, n);
      StrippedShorter(d);
    }
  }

  /** Cutting the first block off a padded text. */
  lemma RestPadded(d: seq<byte>, rest: seq<byte>, text: seq<byte>, n: nat) returns (more: seq<byte>)
    requires d + rest == text + Pads(n) && n <= |rest| && Unpadded(text)
    ensures text == d + more && rest == more + Pads(n) && Unpadded(more)
    ensures text + Pads(n) == d + (more + Pads(n))
  {
    assert |d| + |rest| == |text| + n;
    more := text[|d|..];
    assert (d + rest)[..|d|] == d && (text + Pads(n))[..|d|] == text[..|d|];
    assert (d + rest)[|d|..] == rest && (text + Pads(n))[|d|..] == more + Pads(n);
  }

  lemma {:induction false} FramedLast(items: seq<Item>)
    requires items != []
    ensures |Framed(items)| >= |items[|items| - 1].block.data|
    decreases |items|
  {
    if |items| > 1 {
      FramedLast(items[1..]);
    }
  }

  /** A text sent in blocks with three or more pad bytes at the end is read back as the text. */
  lemma PaddedFile(s: Rx, items: seq<Item>, tail: seq<Noise>, text: seq<byte>, n: nat, size: int)
    requires |s.pkt| >= BIG && Carries(s.line, 1, items, tail) && Tolerable(items, tail)
    requires Unpadded(text) && Blocks(items, text, n) && n >= 3 && size > |text|
    ensures Readable(Open(s))
    ensures Read(Open(s), size).data == text && Read(Open(s), size).err == Some(Eof)
  {
    hide Read, Carries, Tolerable, Blocks, Contents;
    ContentsPadded(items, text, n);
    assert [] + text == text;
    ReadFile(Open(s), items, tail, size);
  }
}
