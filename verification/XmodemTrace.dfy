/** What a trace of the receiver says: the bytes handed over, the blocks accepted, the bytes
    owed for them, and the acknowledgements sent. */
module XmodemTrace {
  import opened Crc
  import opened Xmodem

  /** All bytes handed to the caller. */
  function Given(t: seq<Action>): seq<byte> {
    if t == [] then [] else
    var a := t[|t| - 1];
    Given(t[..|t| - 1]) + (if a.Give? then [a.b] else [])
  }

  /** All blocks accepted as new. */
  function Accepted(t: seq<Action>): seq<Frame> {
    if t == [] then [] else
    var a := t[|t| - 1];
    Accepted(t[..|t| - 1]) + (if a.Accept? then [a.frame] else [])
  }

  /** The concatenation of the blocks without their padding. */
  function Payload(frames: seq<Frame>): seq<byte> {
    if frames == [] then [] else
    Payload(frames[..|frames| - 1]) + Stripped(frames[|frames| - 1].data)
  }

  /** The bytes that the caller has got or is going to get. */
  function Owed(t: seq<Action>): seq<byte> {
    if t == [] then [] else
    var a := t[|t| - 1];
    Owed(t[..|t| - 1]) +
    (match a
     case Accept(f) => Stripped(f.data)
     case Overrun(data) => data
     case _ => [])
  }

  function Acks(t: seq<Action>): nat {
    if t == [] then 0 else Acks(t[..|t| - 1]) + if t[|t| - 1] == Put(ACK) then 1 else 0
  }

  function Duplicates(t: seq<Action>): nat {
    if t == [] then 0 else Duplicates(t[..|t| - 1]) + if t[|t| - 1].Duplicate? then 1 else 0
  }

  function Tries(t: seq<Action>): nat {
    if t == [] then 0 else Tries(t[..|t| - 1]) + if t[|t| - 1].Try? then 1 else 0
  }

  function PollsSent(t: seq<Action>): nat {
    if t == [] then 0 else PollsSent(t[..|t| - 1]) + if t[|t| - 1] == Put(POLL) then 1 else 0
  }

  /** Attempts answered, by a poll or by the block they brought, less attempts made. */
  function Balance(t: seq<Action>): int {
    PollsSent(t) + |Accepted(t)| + Duplicates(t) - Tries(t)
  }

  lemma BalanceSnoc(t: seq<Action>, a: Action)
    ensures Balance(t + [a]) == Balance(t)
      + (if a == Put(POLL) || a.Accept? || a.Duplicate? then 1 else if a.Try? then -1 else 0)
  {
    Snoc(t, a);
    assert (t + [a])[..|t|] == t;
  }

  lemma {:induction false} BalanceGives(t: seq<Action>, data: seq<byte>)
    ensures Balance(t + Gives(data)) == Balance(t)
    decreases |data|
  {
    hide Balance;
    if data == [] {
      assert t + Gives(data) == t;
    } else {
      var n := |data| - 1;
      BalanceGives(t, data[..n]);
      BalanceSnoc(t + Gives(data[..n]), Give(data[n]));
      assert t + Gives(data) == t + Gives(data[..n]) + [Give(data[n])];
    }
  }

  /** No retry loop has run out of attempts on a duplicate. */
  predicate NoOverrun(t: seq<Action>) {
    forall i :: 0 <= i < |t| ==> !t[i].Overrun?
  }

  /** Whenever anything is transmitted, the caller has got all that was owed to him. */
  predicate PutsWhenDrained(t: seq<Action>) {
    forall i :: 0 <= i < |t| && t[i].Put? ==> Given(t[..i]) == Owed(t[..i])
  }

  predicate OverrunsLong(t: seq<Action>) {
    forall i :: 0 <= i < |t| && t[i].Overrun? ==> |t[i].data| >= SMALL
  }

  lemma Snoc(t: seq<Action>, a: Action)
    ensures var u := t + [a];
      && Given(u) == Given(t) + (if a.Give? then [a.b] else [])
      && Accepted(u) == Accepted(t) + (if a.Accept? then [a.frame] else [])
      && Acks(u) == Acks(t) + (if a == Put(ACK) then 1 else 0)
      && Duplicates(u) == Duplicates(t) + (if a.Duplicate? then 1 else 0)
      && Tries(u) == Tries(t) + (if a.Try? then 1 else 0)
    ensures Owed(t + [a]) ==
      Owed(t) + (match a case Accept(f) => Stripped(f.data) case Overrun(data) => data case _ => [])
  {
    assert (t + [a])[..|t|] == t;
  }

  lemma SnocOrder(t: seq<Action>, a: Action)
    requires PutsWhenDrained(t) && OverrunsLong(t)
    requires a.Put? ==> Given(t) == Owed(t)
    requires a.Overrun? ==> |a.data| >= SMALL
    ensures PutsWhenDrained(t + [a]) && OverrunsLong(t + [a])
  {
    var u := t + [a];
    forall i | 0 <= i < |u| && u[i].Put?
      ensures Given(u[..i]) == Owed(u[..i])
    {
      assert u[..i] == t[..i];
      if i == |t| {
        assert t[..i] == t;
      } else {
        assert t[i].Put?;
      }
    }
  }

  lemma {:induction false} SnocGives(t: seq<Action>, data: seq<byte>)
    ensures var u := t + Gives(data);
      && Given(u) == Given(t) + data
      && Accepted(u) == Accepted(t) && Owed(u) == Owed(t)
      && Acks(u) == Acks(t) && Duplicates(u) == Duplicates(t) && Tries(u) == Tries(t)
      && (PutsWhenDrained(t) && OverrunsLong(t) ==> PutsWhenDrained(u) && OverrunsLong(u))
    decreases |data|
  {
    hide Given, Accepted, Owed, Acks, Duplicates, Tries, PutsWhenDrained, OverrunsLong;
    if data == [] {
      assert t + Gives(data) == t;
    } else {
      var n := |data| - 1;
      var u := t + Gives(data[..n]);
      SnocGives(t, data[..n]);
      Snoc(u, Give(data[n]));
      if PutsWhenDrained(u) && OverrunsLong(u) {
        SnocOrder(u, Give(data[n]));
      }
      assert t + Gives(data) == u + [Give(data[n])];
      assert Given(t) + data == Given(t) + data[..n] + [data[n]];
    }
  }

  lemma PayloadSnoc(frames: seq<Frame>, f: Frame)
    ensures Payload(frames + [f]) == Payload(frames) + Stripped(f.data)
  {
    assert (frames + [f])[..|frames|] == frames;
  }

  /** The bytes owed are the payload of the accepted blocks exactly when there is no overrun. */
  lemma {:induction false} OwedIsPayload(t: seq<Action>)
    requires OverrunsLong(t)
    ensures NoOverrun(t) ==> Owed(t) == Payload(Accepted(t))
    ensures !NoOverrun(t) ==> |Owed(t)| > |Payload(Accepted(t))|
  {
    if t != [] {
      var n := |t| - 1;
      var u, a := t[..n], t[n];
      assert t == u + [a];
      assert forall i :: 0 <= i < n ==> u[i] == t[i];
      OwedIsPayload(u);
      Snoc(u, a);
      if a.Accept? {
        PayloadSnoc(Accepted(u), a.frame);
      } else {
        assert Accepted(t) == Accepted(u);
      }
      if !NoOverrun(t) && !a.Overrun? {
        assert !NoOverrun(u) by {
          var i :| 0 <= i < |t| && t[i].Overrun?;
          assert u[i].Overrun?;
        }
      }
      if NoOverrun(t) {
        assert !t[n].Overrun?;
      }
    }
  }

  // ----- Block numbers -----

  lemma NextNumber(b: byte)
    ensures (b + 1) as int == (b as int + 1) % 256
  {
  }

  /** `b` is the number of the k-th block, counted from 0. */
  predicate HasNumber(b: byte, k: nat) { b as int == (k + 1) % 256 }

  predicate Numbered(frames: seq<Frame>) {
    forall i :: 0 <= i < |frames| ==> HasNumber(frames[i].blk, i)
  }

  lemma NumberAfter(b: byte, k: nat)
    requires HasNumber(b, k)
    ensures HasNumber(b + 1, k + 1)
  {
    NextNumber(b);
    NextRemainder(k);
  }

  lemma NextRemainder(k: nat)
    ensures ((k + 1) % 256 + 1) % 256 == (k + 2) % 256
  {
  }

  // ----- Frames on the wire -----

  function Wire(f: Frame): seq<byte> {
    [f.hdr, f.blk, f.cblk] + f.data + [f.crc1, f.crc2]
  }

  predicate Shaped(f: Frame) {
    || (f.hdr == SOH && |f.data| == SMALL)
    || (f.hdr == STX && |f.data| == BIG)
  }

  predicate GoodChecksum(f: Frame) { Checksum(f.data) == Join(f.crc1, f.crc2) }

  predicate Sound(f: Frame) {
    Shaped(f) && Complementary(f.blk, f.cblk) && GoodChecksum(f)
  }

  predicate AllSound(frames: seq<Frame>) {
    forall i :: 0 <= i < |frames| ==> Sound(frames[i])
  }

  /** The frames appear in `text`, whole, one after the other without overlap. */
  ghost predicate Carved(text: seq<byte>, frames: seq<Frame>) {
    frames == [] ||
    var w := Wire(frames[|frames| - 1]);
    exists k :: 0 <= k <= |text| - |w| && text[k..k + |w|] == w && Carved(text[..k], frames[..|frames| - 1])
  }

  lemma CarvedLonger(text: seq<byte>, more: seq<byte>, frames: seq<Frame>)
    requires Carved(text, frames)
    ensures Carved(text + more, frames)
  {
    if frames != [] {
      var w := Wire(frames[|frames| - 1]);
      var k :| 0 <= k <= |text| - |w| && text[k..k + |w|] == w && Carved(text[..k], frames[..|frames| - 1]);
      assert (text + more)[..k] == text[..k];
      assert (text + more)[k..k + |w|] == w;
    }
  }

  lemma CarvedSnoc(text: seq<byte>, junk: seq<byte>, frames: seq<Frame>, f: Frame)
    requires Carved(text, frames)
    ensures Carved(text + junk + Wire(f), frames + [f])
  {
    CarvedLonger(text, junk, frames);
    var all, fs, k := text + junk + Wire(f), frames + [f], |text + junk|;
    assert fs[..|frames|] == frames && all[..k] == text + junk;
    assert all[k..k + |Wire(f)|] == Wire(f);
  }
}
