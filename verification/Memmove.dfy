/** The replacement memmove of source/compat.c: bytes to align, then whole words, then the rest. */
module Memmove {

  type Byte = b: int | 0 <= b < 256

  const WSIZE := 4

  function Low(address: nat): bv2 {
    (address % WSIZE) as bv2
  }

  /** (a | b) & wmask: whether either address is off a word boundary. */
  predicate Misaligned(a: nat, b: nat) {
    Low(a) | Low(b) != 0
  }

  /** (a ^ b) & wmask: whether the low bits differ. */
  predicate OutOfStep(a: nat, b: nat) {
    Low(a) ^ Low(b) != 0
  }

  lemma LowBits(a: nat, b: nat)
    ensures !Misaligned(a, b) <==> a % WSIZE == 0 && b % WSIZE == 0
    ensures !OutOfStep(a, b) <==> a % WSIZE == b % WSIZE
  {
    OrZero(Low(a), Low(b));
    XorZero(Low(a), Low(b));
    LowExact(a);
    LowExact(b);
  }

  lemma OrZero(x: bv2, y: bv2)
    ensures x | y == 0 <==> x == 0 && y == 0
  {
  }

  lemma XorZero(x: bv2, y: bv2)
    ensures x ^ y == 0 <==> x == y
  {
  }

  lemma LowExact(a: nat)
    ensures Low(a) as int == a % WSIZE
  {
  }

  /** Aligned addresses are a whole number of words apart, so words at different ones do not overlap. */
  lemma WordsApart(a: nat, b: nat)
    requires a % WSIZE == 0 && b % WSIZE == 0
    ensures (a - b) % WSIZE == 0 && (a != b ==> a - b >= WSIZE || b - a >= WSIZE)
  {
  }

  /** Memory after the bytes `from` to `to` of a block have been moved. */
  ghost predicate Moved(mem: seq<Byte>, was: seq<Byte>, dst: nat, src: nat, from: int, to: int) {
    && |mem| == |was| && 0 <= from <= to && dst + to <= |was| && src + to <= |was|
    && forall k {:trigger mem[k]} | 0 <= k < |was| ::
         mem[k] == if dst + from <= k < dst + to then was[k - dst + src] else was[k]
  }

  /** Memory after `n` bytes at `src` have been copied to `dst`, all of them read before any is written. */
  ghost predicate Copied(mem: seq<Byte>, was: seq<Byte>, dst: nat, src: nat, n: nat) {
    && |mem| == |was| && dst + n <= |was| && src + n <= |was|
    && forall k {:trigger mem[k]} | 0 <= k < |was| ::
         mem[k] == if dst <= k < dst + n then was[k - dst + src] else was[k]
  }

  /** Going forward, what is still to be read has not been written yet. */
  lemma ForwardStep(was: seq<Byte>, mem: seq<Byte>, mem2: seq<Byte>, dst: nat, src: nat, i: nat, n: nat)
    requires dst < src && Moved(mem, was, dst, src, 0, i) && Copied(mem2, mem, dst + i, src + i, n)
    ensures Moved(mem2, was, dst, src, 0, i + n)
  {
    forall k | 0 <= k < |was|
      ensures mem2[k] == if dst <= k < dst + i + n then was[k - dst + src] else was[k]
    {
      if dst + i <= k < dst + i + n {
        assert mem2[k] == mem[k - dst + src];
      } else {
        assert mem2[k] == mem[k];
      }
    }
  }

  lemma BackwardStep(was: seq<Byte>, mem: seq<Byte>, mem2: seq<Byte>, dst: nat, src: nat, i: nat, n: nat, to: nat)
    requires src < dst && n <= i <= to && Moved(mem, was, dst, src, i, to)
             && Copied(mem2, mem, dst + i - n, src + i - n, n)
    ensures Moved(mem2, was, dst, src, i - n, to)
  {
    forall k | 0 <= k < |was|
      ensures mem2[k] == if dst + i - n <= k < dst + to then was[k - dst + src] else was[k]
    {
      if dst + i - n <= k < dst + i {
        assert mem2[k] == mem[k - dst + src];
      } else {
        assert mem2[k] == mem[k];
      }
    }
  }

  /** `*dst = *src`. */
  method CopyByte(mem: array<Byte>, dst: nat, src: nat)
    requires dst < mem.Length && src < mem.Length
    modifies mem
    ensures Copied(mem[..], old(mem[..]), dst, src, 1)
  {
    mem[dst] := mem[src];
  }

  /** The same for words, which must be aligned and must not overlap. */
  method CopyWord(mem: array<Byte>, base: nat, dst: nat, src: nat)
    requires dst + WSIZE <= mem.Length && src + WSIZE <= mem.Length
    requires (base + dst) % WSIZE == 0 && (base + src) % WSIZE == 0
    requires dst + WSIZE <= src || src + WSIZE <= dst
    modifies mem
    ensures Copied(mem[..], old(mem[..]), dst, src, WSIZE)
  {
    mem[dst], mem[dst + 1], mem[dst + 2], mem[dst + 3] := mem[src], mem[src + 1], mem[src + 2], mem[src + 3];
  }

  /** memmove, for blocks at offsets `dst0` and `src0` of memory that begins at address `base`. */
  method Memmove(mem: array<Byte>, base: nat, dst0: nat, src0: nat, length: nat)
    requires dst0 + length <= mem.Length && src0 + length <= mem.Length
    modifies mem
    ensures mem[dst0..dst0 + length] == old(mem[src0..src0 + length])
    ensures mem[..dst0] == old(mem[..dst0]) && mem[dst0 + length..] == old(mem[dst0 + length..])
  {
    ghost var was := mem[..];
    if length != 0 && dst0 != src0 {
      if dst0 < src0 {
        Forward(mem, base, dst0, src0, length);
      } else {
        Backward(mem, base, dst0, src0, length);
      }
    }
    assert Moved(mem[..], was, dst0, src0, 0, length);
    MovedMeans(mem[..], was, dst0, src0, length);
    Slices(mem, dst0, length);
    assert was[src0..src0 + length] == old(mem[src0..src0 + length]);
  }

  lemma MovedMeans(mem: seq<Byte>, was: seq<Byte>, dst: nat, src: nat, n: nat)
    requires Moved(mem, was, dst, src, 0, n)
    ensures mem[dst..dst + n] == was[src..src + n] && mem[..dst] == was[..dst] && mem[dst + n..] == was[dst + n..]
  {
  }

  lemma Slices(mem: array<Byte>, dst: nat, n: nat)
    requires dst + n <= mem.Length
    ensures mem[..][dst..dst + n] == mem[dst..dst + n] && mem[..][..dst] == mem[..dst]
            && mem[..][dst + n..] == mem[dst + n..]
  {
  }

  /** The distance to the next boundary, or to the last, takes both addresses there if they are in step. */
  lemma InStepForward(a: nat, b: nat)
    ensures a % WSIZE == b % WSIZE ==>
              var t := WSIZE - a % WSIZE; (a + t) % WSIZE == 0 && (b + t) % WSIZE == 0
  {
  }

  lemma InStepBackward(a: nat, b: nat)
    ensures a % WSIZE == b % WSIZE ==> var t := a % WSIZE; (a - t) % WSIZE == 0 && (b - t) % WSIZE == 0
  {
  }

  /** How many bytes the forward copy moves singly to get to words: at least one whenever its loop, which tests
      at the end, is entered. */
  function HeadForward(src: nat, dst: nat, length: nat): (t: nat)
    requires length > 0
    ensures t <= length && (t < length ==> (src + t) % WSIZE == 0 && (dst + t) % WSIZE == 0)
    ensures t > 0 <==> Misaligned(src, dst)
  {
    LowBits(src, dst);
    hide Misaligned, OutOfStep;
    InStepForward(src, dst);
    if !Misaligned(src, dst) then 0
    else if OutOfStep(src, dst) || length < WSIZE then length
    else WSIZE - src % WSIZE
  }

  /** The same for the backward copy; the addresses are those of the ends of the blocks. */
  function HeadBackward(src: nat, dst: nat, length: nat): (t: nat)
    requires length > 0 && length <= src && length <= dst
    ensures t <= length && (t < length ==> (src - t) % WSIZE == 0 && (dst - t) % WSIZE == 0)
    ensures t > 0 <==> Misaligned(src, dst)
  {
    LowBits(src, dst);
    hide Misaligned, OutOfStep;
    InStepBackward(src, dst);
    if !Misaligned(src, dst) then 0
    else if OutOfStep(src, dst) || length <= WSIZE then length
    else src % WSIZE
  }

  method Forward(mem: array<Byte>, base: nat, dst0: nat, src0: nat, length0: nat)
    requires dst0 < src0 && src0 + length0 <= mem.Length && length0 > 0
    modifies mem
    ensures Moved(mem[..], old(mem[..]), dst0, src0, 0, length0)
  {
    hide Moved, Copied, HeadForward;
    ghost var was := mem[..];
    Unmoved(was, dst0, src0, 0);
    var t := HeadForward(base + src0, base + dst0, length0);
    var length := length0 - t;
    var dst, src := BytesForward(mem, dst0, src0, t, was, dst0, src0);
    dst, src := WordsForward(mem, base, dst, src, length / WSIZE, was, dst0, src0);
    dst, src := BytesForward(mem, dst, src, length % WSIZE, was, dst0, src0);
  }

  method WordsForward(mem: array<Byte>, base: nat, dst1: nat, src1: nat, t0: nat,
                      ghost was: seq<Byte>, ghost dst0: nat, ghost src0: nat)
    returns (dst: nat, src: nat)
    requires |was| == mem.Length && dst0 < src0 && 0 <= dst1 - dst0 == src1 - src0 && src1 + t0 * WSIZE <= mem.Length
    requires t0 > 0 ==> (base + dst1) % WSIZE == 0 && (base + src1) % WSIZE == 0
    requires Moved(mem[..], was, dst0, src0, 0, dst1 - dst0)
    modifies mem
    ensures dst == dst1 + t0 * WSIZE && src == src1 + t0 * WSIZE
    ensures Moved(mem[..], was, dst0, src0, 0, dst - dst0)
  {
    hide Moved, Copied;
    var t := t0;
    dst, src := dst1, src1;
    while t > 0
      invariant 0 <= t <= t0 && dst == dst1 + (t0 - t) * WSIZE && src == src1 + (t0 - t) * WSIZE
      invariant t > 0 ==> (base + dst) % WSIZE == 0 && (base + src) % WSIZE == 0
      invariant Moved(mem[..], was, dst0, src0, 0, dst - dst0)
    {
      ghost var before := mem[..];
      WordsApart(base + dst, base + src);
      CopyWord(mem, base, dst, src);
      ForwardStep(was, before, mem[..], dst0, src0, dst - dst0, WSIZE);
      src, dst, t := src + WSIZE, dst + WSIZE, t - 1;
    }
  }

  lemma Unmoved(was: seq<Byte>, dst: nat, src: nat, i: nat)
    requires dst + i <= |was| && src + i <= |was|
    ensures Moved(was, was, dst, src, i, i)
  {
  }

  method BytesForward(mem: array<Byte>, dst1: nat, src1: nat, t0: nat, ghost was: seq<Byte>, ghost dst0: nat,
      ghost src0: nat)
    returns (dst: nat, src: nat)
    requires |was| == mem.Length && dst0 < src0 && 0 <= dst1 - dst0 == src1 - src0 && src1 + t0 <= mem.Length
    requires Moved(mem[..], was, dst0, src0, 0, dst1 - dst0)
    modifies mem
    ensures dst == dst1 + t0 && src == src1 + t0
    ensures Moved(mem[..], was, dst0, src0, 0, dst - dst0)
  {
    hide Moved, Copied;
    var t := t0;
    dst, src := dst1, src1;
    while t > 0
      invariant 0 <= t <= t0 && dst == dst1 + t0 - t && src == src1 + t0 - t
      invariant Moved(mem[..], was, dst0, src0, 0, dst - dst0)
    {
      ghost var before := mem[..];
      CopyByte(mem, dst, src);
      ForwardStep(was, before, mem[..], dst0, src0, dst - dst0, 1);
      dst, src, t := dst + 1, src + 1, t - 1;
    }
  }

  method Backward(mem: array<Byte>, base: nat, dst0: nat, src0: nat, length0: nat)
    requires src0 < dst0 && dst0 + length0 <= mem.Length && length0 > 0
    modifies mem
    ensures Moved(mem[..], old(mem[..]), dst0, src0, 0, length0)
  {
    hide Moved, Copied, HeadBackward;
    ghost var was := mem[..];
    Unmoved(was, dst0, src0, length0);
    var dst, src := dst0 + length0, src0 + length0;
    var t := HeadBackward(base + src, base + dst, length0);
    var length := length0 - t;
    dst, src := BytesBackward(mem, dst, src, t, was, dst0, src0, length0);
    dst, src := WordsBackward(mem, base, dst, src, length / WSIZE, was, dst0, src0, length0);
    dst, src := BytesBackward(mem, dst, src, length % WSIZE, was, dst0, src0, length0);
  }

  method WordsBackward(mem: array<Byte>, base: nat, dst1: nat, src1: nat, t0: nat,
                       ghost was: seq<Byte>, ghost dst0: nat, ghost src0: nat, ghost length0: nat)
    returns (dst: nat, src: nat)
    requires |was| == mem.Length && src0 < dst0 && dst0 + length0 <= mem.Length
    requires t0 * WSIZE <= dst1 - dst0 == src1 - src0 <= length0
    requires t0 > 0 ==> (base + dst1) % WSIZE == 0 && (base + src1) % WSIZE == 0
    requires Moved(mem[..], was, dst0, src0, dst1 - dst0, length0)
    modifies mem
    ensures dst == dst1 - t0 * WSIZE && src == src1 - t0 * WSIZE
    ensures Moved(mem[..], was, dst0, src0, dst - dst0, length0)
  {
    hide Moved, Copied;
    var t := t0;
    dst, src := dst1, src1;
    while t > 0
      invariant 0 <= t <= t0 && dst == dst1 - (t0 - t) * WSIZE && src == src1 - (t0 - t) * WSIZE
      invariant t > 0 ==> (base + dst) % WSIZE == 0 && (base + src) % WSIZE == 0
      invariant Moved(mem[..], was, dst0, src0, dst - dst0, length0)
    {
      ghost var before, i := mem[..], dst - dst0;
      src, dst := src - WSIZE, dst - WSIZE;
      WordsApart(base + dst, base + src);
      CopyWord(mem, base, dst, src);
      BackwardStep(was, before, mem[..], dst0, src0, i, WSIZE, length0);
      t := t - 1;
    }
  }

  method BytesBackward(mem: array<Byte>, dst1: nat, src1: nat, t0: nat,
                       ghost was: seq<Byte>, ghost dst0: nat, ghost src0: nat, ghost length0: nat)
    returns (dst: nat, src: nat)
    requires |was| == mem.Length && src0 < dst0 && dst0 + length0 <= mem.Length
    requires t0 <= dst1 - dst0 == src1 - src0 <= length0
    requires Moved(mem[..], was, dst0, src0, dst1 - dst0, length0)
    modifies mem
    ensures dst == dst1 - t0 && src == src1 - t0
    ensures Moved(mem[..], was, dst0, src0, dst - dst0, length0)
  {
    hide Moved, Copied;
    var t := t0;
    dst, src := dst1, src1;
    while t > 0
      invariant 0 <= t <= t0 && dst == dst1 - t0 + t && src == src1 - t0 + t
      invariant Moved(mem[..], was, dst0, src0, dst - dst0, length0)
    {
      ghost var before, i := mem[..], dst - dst0;
      dst, src := dst - 1, src - 1;
      CopyByte(mem, dst, src);
      BackwardStep(was, before, mem[..], dst0, src0, i, 1, length0);
      t := t - 1;
    }
  }
}
