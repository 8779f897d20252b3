/** Frames damaged on the way: which damage is noticed. */
module XmodemDamage {
  import opened Crc
  import opened Line
  import opened Xmodem
  import opened XmodemTrace
  import opened XmodemSafety
  import opened XmodemFrame
  import opened XmodemNoise

  /** A frame hit by the error pattern `e` anywhere behind its header byte. */
  function Damaged(f: Frame, e: seq<byte>): Frame
    requires |e| == |Body(f)|
  {
    var got, n := Xor(Body(f), e), |f.data|;
    Frame(f.hdr, got[0], got[1], got[2..n + 2], got[n + 2], got[n + 3])
  }

  /** Damage of one byte or two adjacent bytes. */
  predicate ShortDamage(e: seq<byte>, at: nat) {
    && (forall k :: 0 <= k < |e| && e[k] != 0 ==> at <= k < at + 2)
    && (exists k :: 0 <= k < |e| && e[k] != 0)
  }

  function Flip(b: byte, x: byte): byte { b ^ x }

  lemma SameOnBoth(b: byte, c: byte, x: byte, y: byte)
    requires Complementary(b, c)
    ensures Complementary(Flip(b, x), Flip(c, y)) <==> x == y
  {
  }

  lemma FlipMoves(b: byte, x: byte)
    ensures Flip(b, x) == b <==> x == 0
  {
  }

  lemma XorNothing(b: byte)
    ensures b ^ 0 == b
  {
  }

  /** The data and checksum bytes of the damaged frame. */
  lemma DamagedRest(f: Frame, e: seq<byte>)
    requires |e| == |Body(f)|
    ensures var d, got := Damaged(f, e), Xor(f.data + [f.crc1, f.crc2], e[2..]);
      && d.hdr == f.hdr && |d.data| == |f.data| && d.blk == Flip(f.blk, e[0]) && d.cblk == Flip(f.cblk, e[1])
      && d.data == got[..|f.data|] && d.crc1 == got[|f.data|] && d.crc2 == got[|f.data| + 1]
  {
    var rest := f.data + [f.crc1, f.crc2];
    assert forall k :: 0 <= k < |rest| ==> Body(f)[k + 2] == rest[k];
    assert Xor(Body(f), e)[2..] == Xor(rest, e[2..]);
  }

  predicate RestHit(e: seq<byte>) { exists k :: 2 <= k < |e| && e[k] != 0 }

  lemma RestUnhurt(f: Frame, e: seq<byte>)
    requires |e| == |Body(f)| && !RestHit(e)
    ensures var d := Damaged(f, e); d.data == f.data && GoodChecksum(d) == GoodChecksum(f)
  {
    DamagedRest(f, e);
    var rest := f.data + [f.crc1, f.crc2];
    forall k | 0 <= k < |rest|
      ensures Xor(rest, e[2..])[k] == rest[k]
    {
      assert e[k + 2] == 0;
      XorNothing(rest[k]);
    }
    assert Xor(rest, e[2..]) == rest;
    assert rest[..|f.data|] == f.data;
    SameChecksum(f, Damaged(f, e));
  }

  lemma RestHurt(f: Frame, e: seq<byte>, at: nat)
    requires Sound(f) && |e| == |Body(f)| && ShortDamage(e, at) && RestHit(e)
    ensures !GoodChecksum(Damaged(f, e))
  {
    hide Checksum, Xor, Join;
    var hit: nat :| 2 <= hit < |e| && e[hit] != 0;
    DamagedRest(f, e);
    var rest := e[2..];
    assert rest[hit - 2] == e[hit];
    assert forall k :: 0 <= k < |rest| ==> rest[k] == e[k + 2];
    TwoByteErrorDetected(f.data, f.crc1, f.crc2, rest, if at >= 2 then at - 2 else 0);
  }

  lemma WhereItHits(e: seq<byte>, at: nat)
    requires ShortDamage(e, at) && |e| >= 2
    ensures RestHit(e) ==> e[0] == 0
    ensures !RestHit(e) ==> e[0] != 0 || e[1] != 0
  {
  }

  lemma DamagedFrame(f: Frame, e: seq<byte>, at: nat)
    requires Sound(f) && |e| == |Body(f)| && ShortDamage(e, at)
    ensures var d := Damaged(f, e);
      && Shaped(d) && (Complementary(d.blk, d.cblk) <==> e[0] == e[1])
      && (GoodChecksum(d) <==> !RestHit(e))
      && (!RestHit(e) ==> d.data == f.data)
    ensures e[0] == e[1] ==> (RestHit(e) <==> e[0] == 0)
  {
    assert |e| == |f.data| + 4;
    hide GoodChecksum, Complementary, Damaged, Flip, Body, RestHit, ShortDamage;
    DamagedRest(f, e);
    SameOnBoth(f.blk, f.cblk, e[0], e[1]);
    WhereItHits(e, at);
    if RestHit(e) {
      RestHurt(f, e, at);
    } else {
      RestUnhurt(f, e);
    }
  }

  /** Exactly which damage of one byte or two adjacent bytes behind the header byte is not noticed:
      the same pattern in the block number and in its complement.  The block is then whole, under
      another number. */
  lemma DamageUnnoticed(f: Frame, e: seq<byte>, at: nat)
    requires Sound(f) && |e| == |Body(f)| && ShortDamage(e, at)
    ensures var d := Damaged(f, e);
      && (Sound(d) <==> e[0] == e[1] != 0)
      && (Sound(d) ==> d.blk != f.blk && d.data == f.data)
  {
    assert |e| == |f.data| + 4;
    DamagedFrame(f, e, at);
    DamagedRest(f, e);
    FlipMoves(f.blk, e[0]);
    hide GoodChecksum, Complementary, Damaged, Flip, Body, RestHit, ShortDamage, Shaped;
  }

  /** What the receiver makes of such damage: different patterns in number and complement are a broken
      frame; damage to the data or the checksum only is a wrong checksum and counts as noise. */
  lemma DamageVerdict(s: Rx, f: Frame, e: seq<byte>, at: nat, next: byte)
    requires Sound(f) && |e| == |Body(f)| && ShortDamage(e, at)
    ensures var d := Damaged(f, e);
      && (e[0] == e[1] == 0 ==> StrayFrame(next, d))
      && (|s.pkt| >= BIG && Delivers(s.line, Wire(d)) ==>
            GetHdr(s).1 == if e[0] != e[1] then BadFrame else if e[0] == 0 then BadChecksum else Ok)
  {
    assert |e| == |f.data| + 4;
    DamagedFrame(f, e, at);
    hide GetHdr, Delivers, Wire, GoodChecksum, Complementary, Damaged;
    hide Body, RestHit, ShortDamage, Shaped, Loaded, SendDeferredAck, Advance;
    var d := Damaged(f, e);
    if |s.pkt| >= BIG && Delivers(s.line, Wire(d)) {
      if Complementary(d.blk, d.cblk) {
        FrameVerdict(s, d);
      } else {
        BrokenVerdict(s, d);
      }
    }
  }

  lemma SameChecksum(f: Frame, d: Frame)
    requires d.data == f.data && d.crc1 == f.crc1 && d.crc2 == f.crc2
    ensures GoodChecksum(d) == GoodChecksum(f)
  {
  }

  lemma BrokenVerdict(s: Rx, f: Frame)
    requires |s.pkt| >= BIG && Shaped(f) && !Complementary(f.blk, f.cblk) && Delivers(s.line, Wire(f))
    ensures GetHdr(s).1 == BadFrame
  {
    hide GetHdr, Delivers, Wire, Complementary, Checksum, Advance, SendDeferredAck;
    FrameArrives(s, f);
  }

  /** The same pattern `x` in number and complement. */
  function Renumbered(f: Frame, x: byte): Frame { f.(blk := Flip(f.blk, x), cblk := Flip(f.cblk, x)) }

  lemma RenumberedSound(f: Frame, x: byte)
    requires Sound(f) && x != 0
    ensures Sound(Renumbered(f, x)) && Renumbered(f, x).blk != f.blk
  {
    hide GoodChecksum, Complementary, Flip;
    SameOnBoth(f.blk, f.cblk, x, x);
    FlipMoves(f.blk, x);
    SameChecksum(f, Renumbered(f, x));
  }

  /** So a block can be taken for the one that is expected although it is another. */
  lemma TakenForAnother(s: Rx, f: Frame, x: byte)
    requires |s.pkt| >= BIG && Sound(f) && x != 0 && Renumbered(f, x).blk == s.nextBlk
    requires Delivers(s.line, Wire(Renumbered(f, x)))
    ensures f.blk != s.nextBlk
    ensures var (r, stat, step) := Attempt(s);
      && stat.Ok? && step.Stop? && r.nextBlk == s.nextBlk + 1
      && r.len == |Stripped(f.data)| && r.pkt[..r.len] == Stripped(f.data)
  {
    hide Delivers, Wire, Advance, Attempt, Sound, Stripped;
    RenumberedSound(f, x);
    BlockAttempt(s, Renumbered(f, x));
  }
}
