/**
 * Which frames a packet repeats when the depth changes under way: told by the operations alone, and
 * compared with the history that the packetizer keeps.
 */
module DepthHistory {
  import opened Basics
  import opened RedPacketizer

  /** The depth in force: the last one set. */
  function DepthAfter(depth: nat, ops: seq<PackerOp>): nat {
    if ops == [] then depth
    else
      match ops[|ops| - 1]
      case DoSetDepth(d) => d
      case _ => DepthAfter(depth, ops[..|ops| - 1])
  }

  /** How many frames were packed since the last reset. */
  function PackedAfter(ops: seq<PackerOp>): nat {
    if ops == [] then 0
    else
      match ops[|ops| - 1]
      case DoPack(_) => PackedAfter(ops[..|ops| - 1]) + 1
      case DoSetDepth(_) => PackedAfter(ops[..|ops| - 1])
      case DoReset => 0
  }

  /** Operation u resets nothing, and after it frame i lies within the depth in force. */
  predicate WithinAt(depth: nat, ops: seq<PackerOp>, i: int, u: nat)
    requires u < |ops|
  {
    !ops[u].DoReset? && PackedAfter(ops[..u + 1]) - i <= DepthAfter(depth, ops[..u + 1])
  }

  /** Operation t packed frame i, and from then on it always lay within the depth in force. */
  predicate HeldSince(depth: nat, ops: seq<PackerOp>, i: int, t: nat) {
    && t < |ops| && ops[t].DoPack? && PackedAfter(ops[..t]) == i
    && forall u :: t <= u < |ops| ==> WithinAt(depth, ops, i, u)
  }

  ghost predicate Held(depth: nat, ops: seq<PackerOp>, i: int) {
    exists t: nat :: HeldSince(depth, ops, i, t)
  }

  lemma WithinBefore(depth: nat, ops: seq<PackerOp>, op: PackerOp, i: int, u: nat)
    requires u < |ops|
    ensures WithinAt(depth, ops + [op], i, u) == WithinAt(depth, ops, i, u)
  {
    assert (ops + [op])[..u + 1] == ops[..u + 1];
  }

  lemma WithinLast(depth: nat, ops: seq<PackerOp>, op: PackerOp, i: int)
    ensures var all := ops + [op];
            WithinAt(depth, all, i, |ops|) <==> !op.DoReset? && PackedAfter(all) - i <= DepthAfter(depth, all)
  {
    assert (ops + [op])[..|ops| + 1] == ops + [op];
  }

  lemma WithinThen(depth: nat, ops: seq<PackerOp>, op: PackerOp, i: int, t: nat)
    ensures (forall u :: t <= u < |ops + [op]| ==> WithinAt(depth, ops + [op], i, u)) <==>
              (t <= |ops| ==> WithinAt(depth, ops + [op], i, |ops|)) &&
              (forall u :: t <= u < |ops| ==> WithinAt(depth, ops, i, u))
  {
    hide WithinAt;
    var all := ops + [op];
    forall u | 0 <= u < |ops|
      ensures WithinAt(depth, all, i, u) == WithinAt(depth, ops, i, u)
    {
      WithinBefore(depth, ops, op, i, u);
    }
  }

  /** An operation more holds a frame on, or holds the one it packs. */
  lemma HeldSinceOneMore(depth: nat, ops: seq<PackerOp>, op: PackerOp, i: int, t: nat)
    ensures HeldSince(depth, ops + [op], i, t) <==>
              && WithinAt(depth, ops + [op], i, |ops|)
              && (if t == |ops| then op.DoPack? && PackedAfter(ops) == i else HeldSince(depth, ops, i, t))
  {
    hide WithinAt, PackedAfter;
    var all := ops + [op];
    WithinThen(depth, ops, op, i, t);
    if t <= |ops| {
      assert all[..t] == ops[..t] && ops[..|ops|] == ops;
    }
  }

  lemma HeldOneMore(depth: nat, ops: seq<PackerOp>, op: PackerOp, i: int)
    ensures Held(depth, ops + [op], i) <==>
              WithinAt(depth, ops + [op], i, |ops|) && (Held(depth, ops, i) || (op.DoPack? && i == PackedAfter(ops)))
  {
    hide WithinAt, PackedAfter;
    forall t: nat
      ensures HeldSince(depth, ops + [op], i, t) <==>
                && WithinAt(depth, ops + [op], i, |ops|)
                && (if t == |ops| then op.DoPack? && PackedAfter(ops) == i else HeldSince(depth, ops, i, t))
    {
      HeldSinceOneMore(depth, ops, op, i, t);
    }
    if op.DoPack? && i == PackedAfter(ops) && WithinAt(depth, ops + [op], i, |ops|) {
      assert HeldSince(depth, ops + [op], i, |ops|);
    }
  }

  /** What an operation makes of the numbers of frames packed and frames kept. */
  lemma HistoryLength(r: PackerRun, op: PackerOp)
    requires |r.packer.history| <= r.packer.depth
    ensures var r', h := Step(r, op), |r.packer.history|;
            && r'.packer.depth == (if op.DoSetDepth? then op.depth else r.packer.depth)
            && |r'.frames| == (if op.DoReset? then 0 else if op.DoPack? then |r.frames| + 1 else |r.frames|)
            && |r'.packer.history|
               == (if op.DoReset? then 0 else Min(r'.packer.depth, if op.DoPack? then h + 1 else h))
  {
    hide PackedPacket;
  }

  /**
   * The history is what is held: after any run of packing, depth changes and resets, the depth is the
   * last one set, and the packetizer keeps exactly the frames that always lay within the depth in
   * force since they were packed.
   */
  lemma {:induction false} HistoryIsWhatIsHeld(depth: nat, ops: seq<PackerOp>)
    ensures var r := RunPacker(depth, ops);
            && r.packer.depth == DepthAfter(depth, ops) && |r.frames| == PackedAfter(ops)
            && |r.packer.history| <= |r.frames| && |r.packer.history| <= r.packer.depth
            && forall i :: |r.frames| - |r.packer.history| <= i < |r.frames| <==> Held(depth, ops, i)
  {
    hide Step, Held;
    if ops == [] {
      NothingHeld(depth);
    } else {
      var front, op := ops[..|ops| - 1], ops[|ops| - 1];
      HistoryIsWhatIsHeld(depth, front);
      assert ops == front + [op];
      HistoryLength(RunPacker(depth, front), op);
      var r := RunPacker(depth, ops);
      forall i
        ensures |r.frames| - |r.packer.history| <= i < |r.frames| <==> Held(depth, ops, i)
      {
        HeldOneMore(depth, front, op, i);
        WithinLast(depth, front, op, i);
      }
    }
  }

  lemma NothingHeld(depth: nat)
    ensures forall i :: !Held(depth, [], i)
  {
  }

  /** What the next packet repeats, exactly: the frames held so far. */
  lemma PacketRepeatsExactly(depth: nat, ops: seq<PackerOp>, payload: Bytes, i: nat)
    ensures var s, j := Sent(depth, ops + [DoPack(payload)]), PackedAfter(ops);
            |s.reach| == j + 1 && (i < j ==> (Oldest(s, j) <= i <==> Held(depth, ops, i)))
  {
    hide Held, RunPacker, Step;
    HistoryIsWhatIsHeld(depth, ops);
    ReachesCount(depth, ops);
    assert (ops + [DoPack(payload)])[..|ops|] == ops;
  }

  lemma {:induction false} ReachesCount(depth: nat, ops: seq<PackerOp>)
    ensures |Reaches(depth, ops)| == PackedAfter(ops)
  {
    hide RunPacker;
    if ops == [] {
    } else {
      ReachesCount(depth, ops[..|ops| - 1]);
    }
  }

  /** Operation u resets nothing and leaves a depth of at least d. */
  predicate KeepsDepth(depth: nat, ops: seq<PackerOp>, d: nat, u: nat)
    requires u < |ops|
  {
    !ops[u].DoReset? && DepthAfter(depth, ops[..u + 1]) >= d
  }

  /**
   * In particular, if the depth has been at least d ever since frame j - d was packed, with no reset,
   * packet j repeats the frames from j - d on, whatever depths were set in the meantime.
   */
  lemma DepthKeptRepeats(depth: nat, ops: seq<PackerOp>, payload: Bytes, d: nat, t: nat)
    requires 1 <= d <= PackedAfter(ops) && t < |ops|
    requires ops[t].DoPack? && PackedAfter(ops[..t]) == PackedAfter(ops) - d
    requires forall u :: t <= u < |ops| ==> KeepsDepth(depth, ops, d, u)
    ensures var s, j := Sent(depth, ops + [DoPack(payload)]), PackedAfter(ops);
            |s.reach| == j + 1 && Oldest(s, j) <= j - d
  {
    hide DepthAfter, Oldest, Sent;
    var i := PackedAfter(ops) - d;
    forall u | t <= u < |ops|
      ensures WithinAt(depth, ops, i, u)
    {
      assert KeepsDepth(depth, ops, d, u);
      PackedGrows(depth, ops, d, u);
    }
    assert HeldSince(depth, ops, i, t);
    PacketRepeatsExactly(depth, ops, payload, i);
  }

  /** Without a reset the count only grows. */
  lemma {:induction false} PackedGrows(depth: nat, ops: seq<PackerOp>, d: nat, u: nat)
    requires u < |ops| && forall v :: u <= v < |ops| ==> KeepsDepth(depth, ops, d, v)
    ensures PackedAfter(ops[..u + 1]) <= PackedAfter(ops)
    decreases |ops| - u
  {
    hide DepthAfter;
    if u + 1 == |ops| {
      assert ops[..u + 1] == ops;
    } else {
      PackedGrows(depth, ops, d, u + 1);
      assert KeepsDepth(depth, ops, d, u + 1);
      assert ops[..u + 2][..u + 1] == ops[..u + 1];
    }
  }
}
