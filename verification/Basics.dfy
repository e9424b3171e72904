/** Machine words, bytes and the circular order on 16-bit sequence numbers. */
module Basics {
  type Byte = x: int | 0 <= x < 0x100
  type U16 = x: int | 0 <= x < 0x1_0000
  type U32 = x: int | 0 <= x < 0x1_0000_0000
  type Bytes = seq<Byte>

  datatype Option<+T> = None | Some(value: T)

  function Min(a: nat, b: nat): nat {
    if a < b then a else b
  }

  function LastN<T>(s: seq<T>, n: nat): seq<T> {
    if |s| > n then s[|s| - n..] else s
  }

  const FRAME_SAMPLES := 960

  /** The 16-bit sequence number of the frame with unwrapped index i. */
  function Seq16(i: int): U16 {
    i % 0x1_0000
  }

  /** The 32-bit RTP timestamp of the frame with unwrapped index i. */
  function Time32(i: int): U32 {
    (FRAME_SAMPLES * i) % 0x1_0000_0000
  }

  /** uint32 subtraction, with wrap-around. */
  function Sub32(a: U32, b: U32): U32 {
    if a >= b then a - b else a - b + 0x1_0000_0000
  }

  /** How many steps forward lead from one sequence number to another (uint16 subtraction). */
  function Dist(from: U16, to: U16): U16 {
    if to >= from then to - from else to - from + 0x1_0000
  }

  /** seqBefore, written as in the source: red.go:397-399. */
  predicate SeqBefore(a: U16, b: U16) {
    (a < b && b - a < 32768) || (a > b && a - b > 32768)
  }

  /** Distances between wrapped numbers are the unwrapped ones, modulo 65536. */
  lemma DistOfIndices(n: int, i: int)
    ensures Dist(Seq16(n), Seq16(i)) == (i - n) % 0x1_0000
  {
    assert n == 0x1_0000 * (n / 0x1_0000) + Seq16(n);
    assert i == 0x1_0000 * (i / 0x1_0000) + Seq16(i);
  }

  /**
   * The circular comparison tells past from future exactly inside a window: for indices less than
   * one wrap apart, it agrees with the unwrapped order if and only if i lies in [n-32767, n+32768].
   */
  lemma SeqBeforeExactness(n: int, i: int)
    requires -0x1_0000 < i - n < 0x1_0000
    ensures (SeqBefore(Seq16(i), Seq16(n)) <==> i < n) <==> -32767 <= i - n <= 32768
  {
    DistOfIndices(i, n);
  }

  /** Inside one wrap ahead, distances are turns, and the past starts after 32768 of them. */
  lemma TurnsAhead(n: int, i: int)
    requires n <= i < n + 0x1_0000
    ensures Dist(Seq16(n), Seq16(i)) == i - n
    ensures SeqBefore(Seq16(i), Seq16(n)) <==> i > n + 32768
  {
    DistOfIndices(n, i);
  }

  lemma TurnsBehind(n: int, i: int)
    requires n - 32767 <= i < n
    ensures SeqBefore(Seq16(i), Seq16(n))
  {
    DistOfIndices(i, n);
  }

  lemma OneWrap(i: int)
    ensures Seq16(i + 0x1_0000) == Seq16(i)
  {
  }

  /** Stepping back k numbers from a wrapped index. */
  lemma StepBack(j: int, k: U16)
    ensures Dist(k, Seq16(j)) == Seq16(j - k)
  {
    assert j == 0x1_0000 * (j / 0x1_0000) + Seq16(j);
  }

  /** Adding one to a wrapped number wraps the index plus one. */
  lemma NextSeq(n: int)
    ensures Seq16(Seq16(n) + 1) == Seq16(n + 1)
  {
  }

  lemma NextTime(n: int)
    ensures (Time32(n) + FRAME_SAMPLES) % 0x1_0000_0000 == Time32(n + 1)
  {
    var a := FRAME_SAMPLES * n;
    assert a == 0x1_0000_0000 * (a / 0x1_0000_0000) + Time32(n);
  }

  /** Timestamps k frames apart differ by 960 k, whatever wraps lie between. */
  lemma TimeOffset(i: int, j: int)
    requires 0 <= j - i && FRAME_SAMPLES * (j - i) < 0x1_0000_0000
    ensures Sub32(Time32(j), Time32(i)) == FRAME_SAMPLES * (j - i)
    ensures Sub32(Time32(j), FRAME_SAMPLES * (j - i)) == Time32(i)
  {
    TimeDifference(i, j);
  }

  /** For any distance, timestamps differ by 960 samples a frame modulo 2^32. */
  lemma TimeDifference(i: int, j: int)
    ensures (Time32(j) - Time32(i)) % 0x1_0000_0000 == (FRAME_SAMPLES * (j - i)) % 0x1_0000_0000
  {
    var a, b := FRAME_SAMPLES * i, FRAME_SAMPLES * j;
    assert a == 0x1_0000_0000 * (a / 0x1_0000_0000) + Time32(i);
    assert b == 0x1_0000_0000 * (b / 0x1_0000_0000) + Time32(j);
  }

  lemma Assoc<T>(a: seq<T>, b: seq<T>, c: seq<T>)
    ensures a + (b + c) == a + b + c
  {
  }

  /** Go's copy(dst[at:], src). */
  method CopyInto(dst: array<Byte>, at: nat, src: Bytes)
    requires at + |src| <= dst.Length
    modifies dst
    ensures dst[..] == old(dst[..at]) + src + old(dst[at + |src|..])
    ensures forall k :: at + |src| <= k < dst.Length ==> dst[k] == old(dst[k])
  {
    for k := 0 to |src|
      invariant forall i :: 0 <= i < dst.Length ==>
                  dst[i] == if at <= i < at + k then src[i - at] else old(dst[i])
    {
      dst[at + k] := src[k];
    }
  }
}
