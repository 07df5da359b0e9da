/**
 The free-block bitmap: bits in bytes, the kernel's `alloc` and `free` over it, and the
 answers of every run of the two.
 */
module Bitmap {
  import opened Collections

  const BSIZE := 1024
  /** Bits, so blocks, per bitmap block. */
  const BPB := 8192

  function Mask(k: nat): bv8
    requires k < 8
  {
    (1 as bv8) << k
  }

  predicate Bit(byte: bv8, k: nat)
    requires k < 8
  {
    byte & Mask(k) != 0
  }

  lemma MaskValue(k: nat)
    requires k < 8
    ensures Mask(k) == if k == 0 then 1 else if k == 1 then 2 else if k == 2 then 4 else if k == 3 then 8
                       else if k == 4 then 16 else if k == 5 then 32 else if k == 6 then 64 else 128
  {
    assert (1 as bv8) << 0 == 1 && (1 as bv8) << 1 == 2 && (1 as bv8) << 2 == 4 && (1 as bv8) << 3 == 8;
    assert (1 as bv8) << 4 == 16 && (1 as bv8) << 5 == 32 && (1 as bv8) << 6 == 64 && (1 as bv8) << 7 == 128;
  }

  lemma BitSet(byte: bv8, k: nat, j: nat)
    requires k < 8 && j < 8
    ensures Bit(byte | Mask(k), j) <==> j == k || Bit(byte, j)
  {
    MaskValue(k);
    MaskValue(j);
  }

  lemma BitClear(byte: bv8, k: nat, j: nat)
    requires k < 8 && j < 8
    ensures Bit(byte & !Mask(k), j) <==> j != k && Bit(byte, j)
  {
    MaskValue(k);
    MaskValue(j);
  }

  lemma NoBits(j: nat)
    requires j < 8
    ensures !Bit(0, j)
  {
  }

  // ----- a bitmap block -----

  predicate Get(blk: seq<bv8>, i: nat)
    requires |blk| == BSIZE && i < BPB
  {
    Bit(blk[i / 8], i % 8)
  }

  function Set(blk: seq<bv8>, i: nat): (r: seq<bv8>)
    requires |blk| == BSIZE && i < BPB
    ensures |r| == BSIZE
  {
    blk[i / 8 := blk[i / 8] | Mask(i % 8)]
  }

  function Clear(blk: seq<bv8>, i: nat): (r: seq<bv8>)
    requires |blk| == BSIZE && i < BPB
    ensures |r| == BSIZE
  {
    blk[i / 8 := blk[i / 8] & !Mask(i % 8)]
  }

  lemma GetSet(blk: seq<bv8>, i: nat, j: nat)
    requires |blk| == BSIZE && i < BPB && j < BPB
    ensures Get(Set(blk, i), j) <==> j == i || Get(blk, j)
  {
    hide Bit, Mask;
    BitSet(blk[i / 8], i % 8, j % 8);
  }

  lemma GetClear(blk: seq<bv8>, i: nat, j: nat)
    requires |blk| == BSIZE && i < BPB && j < BPB
    ensures Get(Clear(blk, i), j) <==> j != i && Get(blk, j)
  {
    hide Bit, Mask;
    BitClear(blk[i / 8], i % 8, j % 8);
  }

  // ----- the kernel's allocator -----

  predicate Shaped(maps: seq<seq<bv8>>, size: nat) {
    size <= |maps| * BPB && forall m :: 0 <= m < |maps| ==> |maps[m]| == BSIZE
  }

  /** Block `b` is marked, in the bitmap block where `alloc` looks for it. */
  predicate Marked(maps: seq<seq<bv8>>, b: nat)
    requires Shaped(maps, b + 1)
  {
    Get(maps[b / BPB], b % BPB)
  }

  ghost function InUse(maps: seq<seq<bv8>>, size: nat): set<nat>
    requires Shaped(maps, size)
  {
    set b | 0 <= b < size && Marked(maps, b)
  }

  lemma MarkOne(maps: seq<seq<bv8>>, size: nat, b: nat)
    requires Shaped(maps, size) && b < size
    ensures var now := maps[b / BPB := Set(maps[b / BPB], b % BPB)];
            Shaped(now, size) && InUse(now, size) == InUse(maps, size) + {b}
  {
    hide Get, Set;
    var now := maps[b / BPB := Set(maps[b / BPB], b % BPB)];
    forall c | 0 <= c < size ensures Marked(now, c) <==> c == b || Marked(maps, c) {
      if c / BPB == b / BPB {
        GetSet(maps[b / BPB], b % BPB, c % BPB);
      }
    }
  }

  /** `free` clears the bit of `b % BPB` in the first bitmap block. */
  lemma ClearOne(maps: seq<seq<bv8>>, size: nat, b: nat, c: nat)
    requires Shaped(maps, size) && c < size
    ensures var now := maps[0 := Clear(maps[0], b % BPB)];
            Shaped(now, size) && (Marked(now, c) <==> c != b % BPB && Marked(maps, c))
  {
    hide Get, Clear;
    if c / BPB == 0 {
      GetClear(maps[0], b % BPB, c % BPB);
    }
  }

  /** The first block from `from` on that is not in use, or `size`. */
  function FirstClear(maps: seq<seq<bv8>>, size: nat, from: nat): (r: nat)
    requires Shaped(maps, size) && from <= size
    ensures from <= r <= size && (forall c :: from <= c < r ==> Marked(maps, c)) && (r < size ==> !Marked(maps, r))
    decreases size - from
  {
    if from == size || !Marked(maps, from) then from else FirstClear(maps, size, from + 1)
  }

  // ----- calls and their answers -----

  datatype Call = Take | Give(b: nat)

  datatype Reply = Got(b: nat) | Gave(b: nat) | Panic

  function Answer(maps: seq<seq<bv8>>, size: nat, call: Call): Reply
    requires 0 < size && Shaped(maps, size)
  {
    match call
    case Take =>
      var b := FirstClear(maps, size, 0);
      if b < size then Got(b) else Panic
    case Give(b) => if Get(maps[0], b % BPB) then Gave(b) else Panic
  }

  function After(maps: seq<seq<bv8>>, size: nat, reply: Reply): (now: seq<seq<bv8>>)
    requires 0 < size && Shaped(maps, size) && (reply.Got? ==> reply.b < size)
    ensures Shaped(now, size)
  {
    match reply
    case Got(b) => maps[b / BPB := Set(maps[b / BPB], b % BPB)]
    case Gave(b) => maps[0 := Clear(maps[0], b % BPB)]
    case Panic => maps
  }

  class BitMap {
    var maps: seq<seq<bv8>>
    const size: nat

    ghost predicate Valid()
      reads this
    {
      0 < size && Shaped(maps, size)
    }

    /** The first clear bit, set; `None` where the source panics because every block is in use. */
    method Alloc() returns (r: Option<nat>)
      requires Valid()
      modifies this
      ensures Valid()
      ensures Answer(old(maps), size, Take) == (match r case Some(b) => Got(b) case None => Panic)
      ensures maps == After(old(maps), size, Answer(old(maps), size, Take))
      ensures r == None ==> maps == old(maps) && forall b :: 0 <= b < size ==> b in InUse(maps, size)
      ensures r.Some? ==> r.value < size && r.value !in old(InUse(maps, size))
      ensures r.Some? ==> forall b :: 0 <= b < r.value ==> b in old(InUse(maps, size))
      ensures r.Some? ==> InUse(maps, size) == old(InUse(maps, size)) + {r.value}
    {
      hide Get, Set, FirstClear;
      var b := 0;
      while b < size
        invariant b % BPB == 0 && maps == old(maps)
        invariant forall c :: 0 <= c < b && c < size ==> Marked(maps, c)
        decreases size - b
      {
        var most := if BPB < size - b then BPB else size - b;
        var i := 0;
        while i < most
          invariant 0 <= i <= most && maps == old(maps)
          invariant forall c :: 0 <= c < b + i ==> Marked(maps, c)
        {
          SplitBlock(b, i);
          var used := Get(maps[b / BPB], i);
          if !used {
            MarkOne(maps, size, b + i);
            IsFirst(maps, size, b + i);
            maps := maps[b / BPB := Set(maps[b / BPB], i)];
            return Some(b + i);
          }
          i := i + 1;
        }
        b := b + BPB;
      }
      IsFirst(maps, size, size);
      r := None;
    }

    /** Clear the bit of `blockno`, in the first bitmap block; false where the source panics. */
    method Free(blockno: nat) returns (ok: bool)
      requires Valid()
      modifies this
      ensures Valid()
      ensures Answer(old(maps), size, Give(blockno)) == if ok then Gave(blockno) else Panic
      ensures maps == After(old(maps), size, Answer(old(maps), size, Give(blockno)))
      ensures ok <==> Get(old(maps)[0], blockno % BPB)
      ensures !ok ==> maps == old(maps)
      ensures ok ==> maps == old(maps)[0 := Clear(old(maps)[0], blockno % BPB)]
    {
      var i := blockno % BPB;
      if !Get(maps[0], i) {
        return false;
      }
      maps := maps[0 := Clear(maps[0], i)];
      ok := true;
    }

    method Step(call: Call) returns (reply: Reply)
      requires Valid()
      modifies this
      ensures Valid() && reply == Answer(old(maps), size, call) && maps == After(old(maps), size, reply)
    {
      hide Get, Set, Clear, FirstClear;
      match call {
        case Take =>
          var r := Alloc();
          reply := if r.Some? then Got(r.value) else Panic;
        case Give(b) =>
          var ok := Free(b);
          reply := if ok then Gave(b) else Panic;
      }
    }

    /** Any calls, one after the other, up to the first that panics. */
    method Serve(calls: seq<Call>) returns (replies: seq<Reply>)
      requires Valid()
      modifies this
      ensures Valid() && replies == Replies(old(maps), size, calls)
    {
      hide Answer, After, Replies;
      replies := [];
      var i := 0;
      assert calls[0..] == calls;
      while i < |calls|
        invariant 0 <= i <= |calls| && Valid()
        invariant Replies(old(maps), size, calls) == replies + Replies(maps, size, calls[i..])
      {
        RepliesStep(maps, size, calls, i);
        var reply := Step(calls[i]);
        replies := replies + [reply];
        i := i + 1;
        if reply == Panic {
          return;
        }
      }
      RepliesNone(maps, size, calls);
    }
  }

  lemma SplitBlock(b: nat, i: nat)
    requires b % BPB == 0 && i < BPB
    ensures (b + i) / BPB == b / BPB && (b + i) % BPB == i
  {
  }

  lemma IsFirst(maps: seq<seq<bv8>>, size: nat, r: nat)
    requires Shaped(maps, size) && r <= size && (forall c :: 0 <= c < r ==> Marked(maps, c))
    requires r < size ==> !Marked(maps, r)
    ensures FirstClear(maps, size, 0) == r
  {
    hide Marked;
    assert FirstClear(maps, size, 0) >= r;
  }

  /** `free` frees the block it is given, and no other, exactly when one bitmap block covers it. */
  lemma FreeExact(maps: seq<seq<bv8>>, size: nat, b: nat)
    requires Shaped(maps, size) && b < size && |maps| > 0 && Get(maps[0], b % BPB)
    ensures var now := maps[0 := Clear(maps[0], b % BPB)];
            && Shaped(now, size) && InUse(now, size) == InUse(maps, size) - {b % BPB}
            && (InUse(now, size) == InUse(maps, size) - {b} <==> b < BPB)
  {
    hide Get, Clear;
    var now := maps[0 := Clear(maps[0], b % BPB)];
    forall c | 0 <= c < size ensures Marked(now, c) <==> c != b % BPB && Marked(maps, c) {
      ClearOne(maps, size, b, c);
    }
    assert Marked(maps, b % BPB) && b % BPB in InUse(maps, size);
  }

  // ----- whole runs -----

  /** The answers to a sequence of calls; nothing follows a panic. */
  function Replies(maps: seq<seq<bv8>>, size: nat, calls: seq<Call>): seq<Reply>
    requires 0 < size && Shaped(maps, size)
    decreases |calls|
  {
    if calls == [] then []
    else
      var r := Answer(maps, size, calls[0]);
      [r] + (if r == Panic then [] else Replies(After(maps, size, r), size, calls[1..]))
  }

  lemma RepliesNone(maps: seq<seq<bv8>>, size: nat, calls: seq<Call>)
    requires 0 < size && Shaped(maps, size)
    ensures Replies(maps, size, calls[|calls|..]) == []
  {
  }

  lemma RepliesFirst(maps: seq<seq<bv8>>, size: nat, calls: seq<Call>)
    requires 0 < size && Shaped(maps, size) && Replies(maps, size, calls) != []
    ensures calls != []
    ensures var r := Answer(maps, size, calls[0]);
            && (r.Got? ==> r.b < size) && Replies(maps, size, calls)[0] == r
            && Replies(maps, size, calls)[1..]
               == if r == Panic then [] else Replies(After(maps, size, r), size, calls[1..])
  {
  }

  lemma RepliesStep(maps: seq<seq<bv8>>, size: nat, calls: seq<Call>, i: nat)
    requires 0 < size && Shaped(maps, size) && i < |calls|
    ensures var r := Answer(maps, size, calls[i]);
            (r.Got? ==> r.b < size) && Replies(maps, size, calls[i..])
            == [r] + (if r == Panic then [] else Replies(After(maps, size, r), size, calls[i + 1..]))
  {
    assert calls[i..][1..] == calls[i + 1..];
  }

  /** Block `b` was given back by a call between `from` and `to`. */
  predicate GivenBack(rs: seq<Reply>, b: nat, from: nat, to: nat) {
    exists k :: from <= k < to && k < |rs| && Returns(rs[k], b)
  }

  predicate Returns(r: Reply, b: nat) {
    r.Gave? && r.b % BPB == b
  }

  /** A block marked in use is not handed out before it is given back. */
  lemma {:induction false} NotBeforeFreed(maps: seq<seq<bv8>>, size: nat, calls: seq<Call>, b: nat, j: nat)
    requires 0 < size && Shaped(maps, size) && b < size && Marked(maps, b)
    requires j < |Replies(maps, size, calls)| && Replies(maps, size, calls)[j] == Got(b)
    ensures GivenBack(Replies(maps, size, calls), b, 0, j)
    decreases |calls|
  {
    hide Marked, Get, Replies, Answer, After;
    var rs := Replies(maps, size, calls);
    RepliesFirst(maps, size, calls);
    var r := Answer(maps, size, calls[0]);
    var rest := rs[1..];
    if Returns(r, b) {
      assert Returns(rs[0], b) && j > 0;
    } else {
      StaysMarked(maps, size, calls[0], b);
      assert j > 0 && rs[j] == rest[j - 1];
      NotBeforeFreed(After(maps, size, r), size, calls[1..], b, j - 1);
      var k :| 0 <= k < j - 1 && k < |rest| && Returns(rest[k], b);
      assert rs[k + 1] == rest[k];
    }
  }

  lemma StaysMarked(maps: seq<seq<bv8>>, size: nat, call: Call, b: nat)
    requires 0 < size && Shaped(maps, size) && b < size && Marked(maps, b) && !Returns(Answer(maps, size, call), b)
    ensures Answer(maps, size, call) != Got(b) && Marked(After(maps, size, Answer(maps, size, call)), b)
  {
    hide Get, Set, Clear;
    var r := Answer(maps, size, call);
    match r
    case Got(c) =>
      if b / BPB == c / BPB {
        GetSet(maps[c / BPB], c % BPB, b % BPB);
      }
    case Gave(c) => ClearOne(maps, size, c, b);
    case Panic =>
  }

  lemma GotMarked(maps: seq<seq<bv8>>, size: nat, b: nat)
    requires 0 < size && Shaped(maps, size) && b < size
    ensures Marked(After(maps, size, Got(b)), b)
  {
    hide Get, Set;
    GetSet(maps[b / BPB], b % BPB, b % BPB);
  }

  /** No block is handed out twice without being given back between. */
  lemma {:induction false} NeverTwice(maps: seq<seq<bv8>>, size: nat, calls: seq<Call>, b: nat, i: nat, j: nat)
    requires 0 < size && Shaped(maps, size) && i < j < |Replies(maps, size, calls)|
    requires Replies(maps, size, calls)[i] == Replies(maps, size, calls)[j] == Got(b)
    ensures GivenBack(Replies(maps, size, calls), b, i + 1, j)
    decreases |calls|
  {
    hide Marked, Get, Replies, Answer, After;
    var rs := Replies(maps, size, calls);
    RepliesFirst(maps, size, calls);
    var r := Answer(maps, size, calls[0]);
    var rest := rs[1..];
    assert rs[j] == rest[j - 1];
    var k;
    if i == 0 {
      GotMarked(maps, size, b);
      NotBeforeFreed(After(maps, size, r), size, calls[1..], b, j - 1);
      k :| 0 <= k < j - 1 && k < |rest| && Returns(rest[k], b);
    } else {
      assert rs[i] == rest[i - 1];
      NeverTwice(After(maps, size, r), size, calls[1..], b, i - 1, j - 1);
      k :| i <= k < j - 1 && k < |rest| && Returns(rest[k], b);
    }
    assert rs[k + 1] == rest[k];
  }
}
