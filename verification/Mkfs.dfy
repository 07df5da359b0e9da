/**
 mkfs itself: the free counters and the sectors, updated in place by `ialloc`, `iappend`
 and `balloc`.
 */
module Mkfs {
  import opened MkfsImage
  import B = Bitmap
  import opened Collections

  /** Data blocks of a file of `n` bytes. */
  function Blocks(n: nat): nat {
    (n + BSIZE - 1) / BSIZE
  }

  /** Blocks such a file takes, its indirect block included. */
  function Cost(k: nat): nat {
    if k > NDIRECT then k + 1 else k
  }

  predicate InodeNumber(i: int) {
    0 < i < NINODEBLOCKS * IPB
  }

  /** The words of the super block. */
  function SuperWords(): seq<nat> {
    [FSMAGIC, FSSIZE, FSSIZE - NMETA, NINODES, NLOG, 2, INODESTART, BMAPSTART]
  }

  predicate SuperBlock(s: Sector)
    requires |s| == BSIZE
  {
    forall j :: 0 <= j < 8 ==> Word(s, j) == SuperWords()[j]
  }

  /**
   What the super block tells: its magic number, the image's 2000 blocks, 200 inodes and 30 log blocks,
   and regions that follow one another: boot and super block, log, inodes, one bitmap block, data.
   */
  lemma SuperLayout(s: Sector)
    requires |s| == BSIZE && SuperBlock(s)
    ensures Word(s, 0) == 0x10203040 && Word(s, 1) == 2000 && Word(s, 3) == 200 && Word(s, 4) == 30
    ensures var nblocks, logstart, inodestart, bmapstart := Word(s, 2), Word(s, 5), Word(s, 6), Word(s, 7);
            && logstart == 2 && inodestart == logstart + Word(s, 4)
            && bmapstart == inodestart + Word(s, 3) / IPB + 1 && bmapstart + 1 + nblocks == Word(s, 1)
  {
    hide Word;
    assert Word(s, 0) == SuperWords()[0] && Word(s, 1) == SuperWords()[1] && Word(s, 2) == SuperWords()[2];
    assert Word(s, 3) == SuperWords()[3] && Word(s, 4) == SuperWords()[4] && Word(s, 5) == SuperWords()[5];
    assert Word(s, 6) == SuperWords()[6] && Word(s, 7) == SuperWords()[7];
  }

  /** The super block, and the inode blocks, which hold the records. */
  predicate Table(disk: map<nat, Sector>, recs: map<nat, Dinode>, but: nat)
    requires Sectors(disk)
  {
    && SuperBlock(disk[1])
    && forall i :: i in recs && i != but ==> InodeNumber(i) && Rec(disk[i / IPB + INODESTART], i % IPB) == recs[i]
  }

  /** No file has more blocks than its size needs. */
  predicate Tight(fs: Fs, i: nat)
    requires i in fs.recs && i in fs.nb && |fs.recs[i].addrs| == NDIRECT + 1
  {
    fs.nb[i] == Blocks(fs.recs[i].size) && (fs.recs[i].addrs[NDIRECT] != 0 <==> fs.nb[i] > NDIRECT)
  }

  ghost predicate AllTight(fs: Fs)
    requires Inv(fs)
  {
    forall i :: i in fs.recs ==> FileOk(fs, i) && Tight(fs, i)
  }

  /** The inode table with one record replaced. */
  ghost predicate Rewritten(was: map<nat, Sector>, now: map<nat, Sector>, inum: nat, d: Dinode)
    requires Sectors(was) && Sectors(now)
  {
    && now[1] == was[1]
    && forall i :: 0 <= i && InodeNumber(i) ==>
      Rec(now[i / IPB + INODESTART], i % IPB) == if i == inum then d else Rec(was[i / IPB + INODESTART], i % IPB)
  }

  lemma TableWritten(was: map<nat, Sector>, now: map<nat, Sector>, recs: map<nat, Dinode>, inum: nat, d: Dinode)
    requires Sectors(was) && Sectors(now) && Table(was, recs, inum) && Rewritten(was, now, inum, d) && InodeNumber(inum)
    ensures Table(now, recs[inum := d], 0)
  {
    hide Rec;
  }

  /** A sector past the metadata holds no inode. */
  lemma TableStays(disk: map<nat, Sector>, recs: map<nat, Dinode>, but: nat, b: nat, s: Sector)
    requires Sectors(disk) && Table(disk, recs, but) && NMETA <= b < FSSIZE && |s| == BSIZE
    ensures Sectors(disk[b := s]) && Table(disk[b := s], recs, but)
  {
    hide Rec;
  }

  /** The sector an inode number falls in. */
  function InodeSector(inum: nat): nat {
    inum / IPB + INODESTART
  }

  function NewDinode(type_: nat): (d: Dinode)
    ensures Fresh(d) && (type_ < 65536 ==> Sized(d))
  {
    Dinode(type_, 65536, 0, [0, 0, 0, 0, 0, 0, 0, 0, 0, 0, 0, 0, 0])
  }

  function WithRec(disk: map<nat, Sector>, inum: nat, d: Dinode): map<nat, Sector>
    requires Sectors(disk) && InodeSector(inum) < FSSIZE && |d.addrs| == NDIRECT + 1
  {
    disk[InodeSector(inum) := PutRec(disk[InodeSector(inum)], inum % IPB, d)]
  }

  /** One empty file more, and all others as they were. */
  ghost predicate OneMore(a: Fs, b: Fs, inum: nat, type_: nat) {
    && Inv(a) && Inv(b) && inum !in a.recs && b.recs.Keys == a.recs.Keys + {inum}
    && b.recs[inum].mode == type_ && Content(b, inum) == []
    && forall j :: j in a.recs ==> b.recs[j] == a.recs[j] && Content(b, j) == Content(a, j)
  }

  class Builder {
    var disk: map<nat, Sector>
    var freeblock: nat
    var freeinode: nat
    ghost var recs: map<nat, Dinode>
    ghost var nb: map<nat, nat>
    ghost var owner: map<nat, Slot>

    ghost function S(): Fs
      reads this
    {
      Fs(disk, recs, nb, freeblock, owner)
    }

    ghost predicate Valid()
      reads this
    {
      && Inv(S()) && AllTight(S()) && Table(disk, recs, 0)
      && 0 < freeinode <= NINODEBLOCKS * IPB && forall i :: i in recs <==> 0 < i < freeinode
    }

    /** Read an inode record. */
    method Rinode(inum: nat) returns (d: Dinode)
      requires Sectors(disk) && InodeNumber(inum)
      ensures d == Rec(disk[inum / IPB + INODESTART], inum % IPB)
    {
      var s := disk[inum / IPB + INODESTART];
      d := Rec(s, inum % IPB);
    }

    /**
     Write an inode record, in the sector its number falls in: in the inode table it alone changes.
     Nothing tests that the sector is one of the table.
     */
    method Winode(inum: nat, d: Dinode)
      requires Sectors(disk) && InodeSector(inum) < FSSIZE && Sized(d)
      modifies `disk
      ensures Sectors(disk) && disk == WithRec(old(disk), inum, d)
      ensures InodeNumber(inum) ==> SameData(old(disk), disk) && Rewritten(old(disk), disk, inum, d)
    {
      hide Rec, PutRec;
      var bn := InodeSector(inum);
      var s := disk[bn];
      forall i | InodeNumber(i) && i / IPB == inum / IPB
        ensures Rec(PutRec(s, inum % IPB, d), i % IPB) == if i == inum then d else Rec(s, i % IPB)
      {
        RecPut(s, inum % IPB, d, i % IPB);
      }
      disk := disk[bn := PutRec(s, inum % IPB, d)];
    }

    /** A new inode. Its number is not tested: past the inode blocks the record goes where it falls. */
    method Ialloc(type_: nat) returns (ok: bool, inum: nat)
      requires Sectors(disk) && type_ < 65536
      modifies this
      ensures inum == old(freeinode) && freeinode == inum + 1 && freeblock == old(freeblock)
      ensures ok <==> InodeSector(inum) < FSSIZE
      ensures disk == if ok then WithRec(old(disk), inum, NewDinode(type_)) else old(disk)
      ensures inum >= NINODEBLOCKS * IPB ==> InodeSector(inum) >= BMAPSTART
      ensures old(Valid()) && inum < NINODEBLOCKS * IPB ==> ok && Valid() && OneMore(old(S()), S(), inum, type_)
    {
      hide Rec, Inv, Content, Word, FileOk, AllTight, Table, Rewritten, WithRec, Sized, Fresh;
      ghost var a := S();
      inum := freeinode;
      freeinode := freeinode + 1;
      var d := NewDinode(type_);
      if InodeSector(inum) >= FSSIZE {
        return false, inum;
      }
      if old(Valid()) && inum < NINODEBLOCKS * IPB {
        InvShape(a);
        TableBut(disk, recs, inum);
      }
      Winode(inum, d);
      ok := true;
      if old(Valid()) && inum < NINODEBLOCKS * IPB {
        TableWritten(a.disk, disk, recs, inum, d);
        NewInode(a, disk, inum, d);
        recs, nb := recs[inum := d], nb[inum := 0];
        assert S() == NewFile(a.(disk := disk), inum, d);
      }
    }

    // ----- iappend -----

    /** The loop's state: every file is sound, and all but `inum` are in the inode table. */
    ghost predicate Working(inum: nat, d: Dinode)
      reads this
    {
      && Inv(S()) && inum in recs && inum in nb && Table(disk, recs, inum) && recs[inum].addrs == d.addrs
      && |d.addrs| == NDIRECT + 1
    }

    /** A direct block for the loop's next bytes: the one there, or the next free one. */
    method MapDirect(inum: nat, d: Dinode, fbn: nat) returns (e: Dinode, x: nat)
      requires Working(inum, d) && fbn <= nb[inum] <= fbn + 1 && fbn < NDIRECT
      modifies `freeblock, `recs, `nb, `owner
      ensures x < FSSIZE ==> Working(inum, e) && Grown(old(S()), S(), inum, fbn, e.addrs, x)
      ensures e == d.(addrs := e.addrs) && |e.addrs| == NDIRECT + 1 && e.addrs[NDIRECT] == d.addrs[NDIRECT]
      ensures freeblock == old(freeblock) + (fbn + 1 - old(nb)[inum])
      ensures x >= FSSIZE ==> freeblock > FSSIZE
    {
      hide Rec, Word, Inv, Table, Extends, FileOk, BlockOk, AddDirect, Grown, Sectors;
      ghost var a := S();
      MappedIff(a, inum, fbn);
      e := d;
      if e.addrs[fbn] == 0 {
        if freeblock < FSSIZE {
          DirectStep(a, inum, fbn);
          ghost var u := AddDirect(a, inum);
          TableRecs(disk, recs, u.recs, inum);
          recs, nb, owner := u.recs, u.nb, u.owner;
        }
        e := e.(addrs := e.addrs[fbn := freeblock]);
        freeblock := freeblock + 1;
      } else {
        GrownRefl(a, inum, fbn);
      }
      x := e.addrs[fbn];
    }
  
    /** The indirect block: the one there, or the next free one. */
    method MapInd(inum: nat, d: Dinode) returns (e: Dinode)
      requires Working(inum, d) && NDIRECT <= nb[inum] && (d.addrs[NDIRECT] != 0 <==> nb[inum] > NDIRECT)
      modifies `freeblock, `recs, `owner
      ensures |e.addrs| == NDIRECT + 1 && e == d.(addrs := d.addrs[NDIRECT := e.addrs[NDIRECT]])
      ensures e.addrs[NDIRECT] < FSSIZE ==> Working(inum, e) && e.addrs[NDIRECT] != 0 && Extends(old(S()), S())
      ensures e.addrs[NDIRECT] < FSSIZE ==> recs == old(recs)[inum := old(recs)[inum].(addrs := e.addrs)]
      ensures freeblock == old(freeblock) + (if old(nb)[inum] > NDIRECT then 0 else 1)
      ensures e.addrs[NDIRECT] >= FSSIZE ==> freeblock > FSSIZE
    {
      hide Rec, Word, Inv, Table, Extends, FileOk, BlockOk, AddInd;
      ghost var a := S();
      InvFile(a, inum);
      InvShape(a);
      e := d;
      if e.addrs[NDIRECT] == 0 {
        if freeblock < FSSIZE {
          IndStep(a, inum);
          ghost var u := AddInd(a, inum);
          TableRecs(disk, recs, u.recs, inum);
          recs, owner := u.recs, u.owner;
        }
        e := e.(addrs := e.addrs[NDIRECT := freeblock]);
        freeblock := freeblock + 1;
      } else {
        ExtendsRefl(a);
        MappedIff(a, inum, NDIRECT);
        assert recs == recs[inum := recs[inum].(addrs := e.addrs)];
      }
    }

    /** A block through the indirect block: the one there, or the next free one. */
    method MapEntry(inum: nat, e: Dinode, fbn: nat) returns (x: nat)
      requires Working(inum, e) && NDIRECT <= fbn <= nb[inum] <= fbn + 1 && fbn < MAXFILE
      requires 0 < e.addrs[NDIRECT] < FSSIZE
      modifies `disk, `freeblock, `nb, `owner
      ensures x < FSSIZE ==> Working(inum, e) && Grown(old(S()), S(), inum, fbn, e.addrs, x)
      ensures freeblock == old(freeblock) + (fbn + 1 - old(nb)[inum])
      ensures x >= FSSIZE ==> freeblock > FSSIZE
    {
      hide Rec, Word, Inv, Table, Extends, FileOk, BlockOk, AddEntry, SetWord, Grown;
      ghost var a := S();
      MappedIff(a, inum, fbn);
      var ind := e.addrs[NDIRECT];
      var indirect := disk[ind];
      if Word(indirect, fbn - NDIRECT) == 0 {
        indirect := SetWord(indirect, fbn - NDIRECT, freeblock);
        if freeblock < FSSIZE {
          EntryStep(a, inum, fbn);
          ghost var u := AddEntry(a, inum);
          TableStays(disk, recs, inum, ind, indirect);
          nb, owner := u.nb, u.owner;
        }
        WordSet(disk[ind], fbn - NDIRECT, freeblock, fbn - NDIRECT);
        disk := disk[ind := indirect];
        freeblock := freeblock + 1;
      } else {
        GrownRefl(a, inum, fbn);
      }
      x := Word(indirect, fbn - NDIRECT);
    }

    /** The block for the bytes at offset `off`; `ok` is false where reading a sector fails. */
    method MapBlock(inum: nat, d: Dinode, fbn: nat) returns (ok: bool, e: Dinode, x: nat)
      requires Working(inum, d) && fbn <= nb[inum] <= fbn + 1 && fbn < MAXFILE
      requires d.addrs[NDIRECT] != 0 <==> nb[inum] > NDIRECT
      modifies this
      ensures ok ==> Working(inum, e) && Grown(old(S()), S(), inum, fbn, e.addrs, x) && freeinode == old(freeinode)
      ensures ok ==> e == d.(addrs := e.addrs) && (e.addrs[NDIRECT] != 0 <==> fbn + 1 > NDIRECT)
      ensures ok <==> old(freeblock) + Cost(fbn + 1) - Cost(old(nb)[inum]) <= FSSIZE
      ensures ok ==> freeblock == old(freeblock) + Cost(fbn + 1) - Cost(old(nb)[inum])
    {
      hide Rec, Word, Inv, Table, Extends, FileOk, BlockOk, Grown;
      ghost var a := S();
      ok := false;
      FreeFits(a);
      if fbn < NDIRECT {
        e, x := MapDirect(inum, d, fbn);
        if x < FSSIZE {
          FreeFits(S());
        }
      } else {
        e := MapInd(inum, d);
        x := 0;
        if e.addrs[NDIRECT] >= FSSIZE {
          return;
        }
        ghost var mid := S();
        x := MapEntry(inum, e, fbn);
        if x < FSSIZE {
          FreeFits(S());
          GrownTrans(a, mid, S(), inum, fbn, e.addrs, x);
        }
      }
      ok := x < FSSIZE;
    }
  
    /** One round of the loop: the bytes that fall in the block at offset `off`. */
    method AppendChunk(inum: nat, d: Dinode, off: nat, chunk: seq<bv8>) returns (ok: bool, e: Dinode)
      requires Working(inum, d) && recs[inum] == d.(size := off) && nb[inum] == Blocks(off) && off < MAXFILE * BSIZE
      requires d.addrs[NDIRECT] != 0 <==> nb[inum] > NDIRECT
      requires off % BSIZE + |chunk| <= BSIZE && |chunk| > 0
      modifies this
      ensures ok <==> old(freeblock) + Cost(off / BSIZE + 1) - Cost(Blocks(off)) <= FSSIZE
      ensures ok ==> Working(inum, e) && Longer(old(S()), S(), inum, chunk) && freeinode == old(freeinode)
      ensures ok ==> e == d.(addrs := e.addrs) && recs[inum] == e.(size := off + |chunk|) && nb[inum] == off / BSIZE + 1
      ensures ok ==> (e.addrs[NDIRECT] != 0 <==> nb[inum] > NDIRECT)
      ensures ok ==> freeblock == old(freeblock) + Cost(off / BSIZE + 1) - Cost(Blocks(off))
    {
      hide Rec, Word, Inv, Table, FileOk, BlockOk, Grown, Appended, Longer;
      ghost var a := S();
      var x;
      ok, e, x := MapBlock(inum, d, off / BSIZE);
      if !ok {
        return;
      }
      ghost var b := S();
      Round(a, b, inum, e.addrs, x, chunk);
      var s := Splice(disk[x], off % BSIZE, chunk);
      TableStays(disk, recs, inum, x, s);
      ghost var u := Appended(b, inum, chunk);
      TableRecs(disk[x := s], recs, u.recs, inum);
      disk := disk[x := s];
      recs := u.recs;
    }

    /** The loop of `iappend`, from a record `first` read from the table. */
    method AppendAll(inum: nat, first: Dinode, data: seq<bv8>) returns (ok: bool, d: Dinode)
      requires Working(inum, first) && recs[inum] == first && Tight(S(), inum) && first.size <= MAXFILE * BSIZE
      requires freeblock <= FSSIZE
      modifies this
      ensures ok <==> Room(old(S()), inum, |data|)
      ensures ok ==> Working(inum, d) && Longer(old(S()), S(), inum, data) && freeinode == old(freeinode)
      ensures ok ==> recs[inum] == d && Tight(S(), inum) && d.size == first.size + |data|
      ensures ok ==> d == first.(addrs := d.addrs, size := d.size)
      ensures ok ==> freeblock == old(freeblock) + Cost(Blocks(d.size)) - Cost(Blocks(first.size))
    {
      hide Rec, Word, Inv, FileOk, BlockOk, Longer, Table, Blocks, Cost;
      ghost var a := S();
      LongerNone(a, inum);
      d := first;
      var p, off := 0, d.size;
      while p < |data|
        invariant 0 <= p <= |data| && off == first.size + p <= MAXFILE * BSIZE && freeinode == old(freeinode)
        invariant Working(inum, d) && recs[inum] == d.(size := off) && Tight(S(), inum) && d == first.(addrs := d.addrs)
        invariant Longer(a, S(), inum, data[..p])
        invariant freeblock == a.free + Cost(Blocks(off)) - Cost(Blocks(first.size)) <= FSSIZE
        decreases |data| - p
      {
        var fbn := off / BSIZE;
        if fbn >= MAXFILE {
          return false, d;
        }
        var n1 := if |data| - p < (fbn + 1) * BSIZE - off then |data| - p else (fbn + 1) * BSIZE - off;
        ghost var mid := S();
        CostGrows(off, n1, first.size + |data|);
        ok, d := AppendChunk(inum, d, off, data[p..p + n1]);
        if !ok {
          return;
        }
        LongerTrans(a, mid, S(), inum, data[..p], data[p..p + n1]);
        assert data[..p] + data[p..p + n1] == data[..p + n1];
        p, off := p + n1, off + n1;
        FreeFits(S());
      }
      assert data[..p] == data;
      d := d.(size := off);
      ok := true;
    }

    /** Append `data` to a file; `ok` is false where the source aborts. */
    method Iappend(inum: nat, data: seq<bv8>) returns (ok: bool)
      requires Valid() && inum in recs
      modifies this
      ensures ok <==> Room(old(S()), inum, |data|)
      ensures ok ==> Valid() && Longer(old(S()), S(), inum, data) && freeinode == old(freeinode)
      ensures ok ==> freeblock == old(freeblock) + Cost(Blocks(recs[inum].size)) - Cost(Blocks(old(recs)[inum].size))
    {
      hide Rec, Word, Inv, FileOk, BlockOk, Longer, AllTight, Blocks, Cost, Room, Table, Rewritten, Sized;
      ghost var a := S();
      TightAt(a, inum);
      InvShape(a);
      TableBut(disk, recs, inum);
      var first := Rinode(inum);
      var d;
      ok, d := AppendAll(inum, first, data);
      if !ok {
        return;
      }
      ghost var b := S();
      InvShape(b);
      RecBound(a.disk, inum);
      SizedNow(b, inum);
      LongerKeys(a, b, inum, data);
      Winode(inum, d);
      TableWritten(b.disk, disk, recs, inum, d);
      assert recs == recs[inum := d];
      MetaLonger(a, b, disk, inum, data);
    }
  
    // ----- the empty image, and the bitmap -----

    constructor ()
      ensures Valid() && recs == map[] && freeblock == NMETA && freeinode == 1 && SuperBlock(disk[1])
      ensures forall b :: b in disk && b != 1 ==> disk[b] == Zeroes(BSIZE)
    {
      hide ZeroDisk, SetWords, Zeroes, Word, SuperBlock, Inv, AllTight;
      disk := ZeroDisk(FSSIZE)[1 := SetWords(Zeroes(BSIZE), 0, SuperWords())];
      freeblock, freeinode := NMETA, 1;
      recs, nb, owner := map[], map[], map[];
      SuperWritten();
      EmptyInv(ZeroDisk(FSSIZE)[1 := SetWords(Zeroes(BSIZE), 0, SuperWords())]);
    }

    /**
     The root directory's size at the end, rounded to whole blocks.  A size that is a multiple
     already still grows by a block, which the directory does not have: the file stays sound
     exactly when its size was no multiple.
     */
    method FixRoot(root: nat)
      requires Valid() && root in recs
      modifies `disk, `recs
      ensures Sectors(disk) && root in nb
      ensures recs == old(recs)[root := old(recs)[root].(size := NextBlock(old(recs)[root].size))]
      ensures recs[root].size <= nb[root] * BSIZE <==> old(recs)[root].size % BSIZE != 0
      ensures Valid() <==> old(recs)[root].size % BSIZE != 0
      ensures Valid() ==> Padded(old(S()), S(), root)
    {
      hide Rec, Word, Inv, FileOk, BlockOk, AllTight, Blocks, Table, Rewritten, Sized, WithRec, Content;
      ghost var a := S();
      TightAt(a, root);
      InvShape(a);
      TableBut(disk, recs, root);
      RecBound(disk, root);
      SizedNow(a, root);
      var d := Rinode(root);
      var e := d.(size := NextBlock(d.size));
      SizedRounded(d);
      Winode(root, e);
      TableWritten(a.disk, disk, recs, root, e);
      recs := recs[root := e];
      BlocksRounded(d.size);
      if d.size % BSIZE != 0 {
        RoundedRoot(a, disk, root);
        assert S() == Resize(a.(disk := disk), root, e.size);
      } else if Inv(S()) {
        InvFile(S(), root);
        SizeMapped(S(), root);
      }
    }

    /**
     Mark the blocks handed out, and the metadata, in the bitmap block, whatever the image is
     like otherwise.  `ok` is false where the source aborts: the bits do not fit one block.
     */
    method Balloc() returns (ok: bool)
      requires Sectors(disk)
      modifies `disk
      ensures ok <==> freeblock < B.BPB
      ensures !ok ==> disk == old(disk)
      ensures ok ==> Sectors(disk) && MarksBelow(disk[BMAPSTART], freeblock)
      ensures ok ==> disk == old(disk)[BMAPSTART := disk[BMAPSTART]]
      ensures old(Valid()) ==> ok && Valid() && forall j :: j in recs ==> Content(S(), j) == old(Content(S(), j))
    {
      hide Rec, Word, Inv, FileOk, Content, AllTight, MarksBelow, Table;
      ghost var a := S();
      if old(Valid()) {
        FreeFits(a);
      }
      if freeblock >= B.BPB {
        return false;
      }
      var buf := MarkAll(freeblock);
      disk := disk[BMAPSTART := buf];
      if old(Valid()) {
        MetaTight(a, disk);
        TableBitmap(a.disk, recs, buf);
      }
      ok := true;
    }
  }

  /** The bitmap block holds no inode. */
  lemma TableBitmap(disk: map<nat, Sector>, recs: map<nat, Dinode>, s: Sector)
    requires Sectors(disk) && Table(disk, recs, 0) && |s| == BSIZE
    ensures Table(disk[BMAPSTART := s], recs, 0)
  {
    hide Rec, Word;
  }

  // ----- where the general conditions fail -----

  /** A root directory of 64 entries fills its block, and the rounding at the end spoils it. */
  method FullRoot(entries: seq<seq<bv8>>) returns (b: Builder, root: nat)
    requires |entries| == 64 && forall i :: 0 <= i < 64 ==> |entries[i]| == 16
    ensures fresh(b) && !b.Valid() && root in b.recs && root in b.nb && Sectors(b.disk)
    ensures b.recs[root].size == 2 * BSIZE && b.nb[root] == 1 && MarksBelow(b.disk[BMAPSTART], b.freeblock)
  {
    hide Inv, AllTight, Table, Content, Longer, MarksBelow, SuperBlock, WithRec;
    b := new Builder();
    var ok;
    InvShape(b.S());
    ok, root := b.Ialloc(1);
    NewEmpty(b.S(), root);
    var i := 0;
    while i < 64
      invariant 0 <= i <= 64 && b.Valid() && root in b.recs && b.recs[root].size == 16 * i
      invariant b.freeblock == NMETA + Cost(Blocks(16 * i)) && fresh(b)
    {
      ghost var was := b.S();
      ok := b.Iappend(root, entries[i]);
      LongerSize(was, b.S(), root, entries[i]);
      i := i + 1;
    }
    TightAt(b.S(), root);
    InvShape(b.S());
    b.FixRoot(root);
    ok := b.Balloc();
    TooLong(b.S(), root);
  }

  lemma TooLong(fs: Fs, i: nat)
    requires i in fs.recs && i in fs.nb && fs.recs[i].size > fs.nb[i] * BSIZE
    ensures !Inv(fs)
  {
    hide Inv;
    if Inv(fs) {
      SizeMapped(fs, i);
    }
  }

  lemma NewEmpty(fs: Fs, i: nat)
    requires Inv(fs) && i in fs.recs && Content(fs, i) == []
    ensures fs.recs[i].size == 0
  {
    hide Inv;
  }

  lemma LongerSize(a: Fs, b: Fs, i: nat, more: seq<bv8>)
    requires Longer(a, b, i, more)
    ensures i in b.recs && b.recs[i].size == a.recs[i].size + |more|
  {
    hide Inv;
    assert |Content(b, i)| == |Content(a, i)| + |more|;
  }

  /** The inode table has 207 numbers to give; the record of the next lands in the bitmap block. */
  method TooManyInodes() returns (b: Builder, inum: nat)
    ensures fresh(b) && inum == 208 && Sectors(b.disk) && Rec(b.disk[BMAPSTART], 0) == NewDinode(2)
  {
    hide Inv, AllTight, Table, Content, SuperBlock, WithRec, Rec, NewDinode;
    b := new Builder();
    var ok;
    var i := 0;
    while i < 207
      invariant 0 <= i <= 207 && b.Valid() && b.freeinode == i + 1 && fresh(b)
    {
      InvShape(b.S());
      ok, inum := b.Ialloc(2);
      i := i + 1;
    }
    InvShape(b.S());
    ghost var was := b.disk;
    ok, inum := b.Ialloc(2);
    InBitmap(was, 2);
  }

  lemma InBitmap(disk: map<nat, Sector>, type_: nat)
    requires Sectors(disk) && type_ < 65536
    ensures InodeSector(208) == BMAPSTART && Sectors(WithRec(disk, 208, NewDinode(type_)))
    ensures Rec(WithRec(disk, 208, NewDinode(type_))[BMAPSTART], 0) == NewDinode(type_)
  {
    hide Rec, PutRec;
    RecPut(disk[BMAPSTART], 0, NewDinode(type_), 0);
  }

  /** The next multiple of the block size above `n`. */
  function NextBlock(n: nat): (r: nat)
    ensures n < r <= n + BSIZE && r % BSIZE == 0
  {
    (n / BSIZE + 1) * BSIZE
  }

  lemma BlocksRounded(n: nat)
    ensures NextBlock(n) <= Blocks(n) * BSIZE <==> n % BSIZE != 0
    ensures n % BSIZE != 0 ==> Blocks(NextBlock(n)) == Blocks(n)
  {
  }

  lemma SizedRounded(d: Dinode)
    requires Sized(d) && d.size <= MAXFILE * BSIZE
    ensures Sized(d.(size := NextBlock(d.size)))
  {
  }

  /** File `i` has got bytes behind it; all others are as they were. */
  ghost predicate Padded(a: Fs, b: Fs, i: nat) {
    && Inv(a) && Inv(b) && i in a.recs && b.recs.Keys == a.recs.Keys
    && Content(a, i) <= Content(b, i) && forall j :: j in a.recs && j != i ==> Content(b, j) == Content(a, j)
  }

  lemma RoundedRoot(a: Fs, disk: map<nat, Sector>, i: nat)
    requires Inv(a) && AllTight(a) && Sectors(disk) && SameData(a.disk, disk) && i in a.recs
    requires a.recs[i].size % BSIZE != 0
    ensures var u := Resize(a.(disk := disk), i, NextBlock(a.recs[i].size));
            Inv(u) && AllTight(u) && Padded(a, u, i)
  {
    hide Word, BlockOk, Content, Files, Owners, Blank, FileOk, Blocks;
    var b := a.(disk := disk);
    MetaTight(a, disk);
    TightAt(b, i);
    var n := NextBlock(a.recs[i].size);
    BlocksRounded(a.recs[i].size);
    ResizeInv(b, i, n);
    var u := Resize(b, i, n);
    forall j | j in u.recs
      ensures FileOk(u, j) && |u.recs[j].addrs| == NDIRECT + 1 && Tight(u, j)
    {
      InvFile(u, j);
      TightAt(b, j);
    }
    forall j | j in a.recs
      ensures Content(u, j)[..a.recs[j].size] == Content(b, j)
    {
      ResizedContent(b, i, n, j);
    }
    forall j | j in a.recs && j != i ensures Content(u, j) == Content(a, j) {
      assert Content(u, j)[..a.recs[j].size] == Content(u, j);
    }
  }

  lemma ResizedContent(fs: Fs, i: nat, n: nat, j: nat)
    requires Inv(fs) && i in fs.recs && fs.recs[i].size <= n <= fs.nb[i] * BSIZE && j in fs.recs
    ensures Inv(Resize(fs, i, n)) && Content(Resize(fs, i, n), j)[..fs.recs[j].size] == Content(fs, j)
  {
    hide Word, BlockOk, Files, Owners, Blank, ByteAt;
    ResizeInv(fs, i, n);
    SizeMapped(fs, j);
    var u := Resize(fs, i, n);
    forall o | 0 <= o < fs.recs[j].size ensures Content(u, j)[o] == Content(fs, j)[o] {
      ResizeByte(fs, i, n, j, o);
    }
  }

  function ZeroDisk(n: nat): (d: map<nat, Sector>)
    ensures forall b :: b in d <==> 0 <= b < n
    ensures forall b :: b in d ==> d[b] == Zeroes(BSIZE)
  {
    if n == 0 then map[] else ZeroDisk(n - 1)[n - 1 := Zeroes(BSIZE)]
  }

  lemma SuperWritten()
    ensures SuperBlock(SetWords(Zeroes(BSIZE), 0, SuperWords()))
  {
    hide Word, SetWords, Zeroes;
    var s := SetWords(Zeroes(BSIZE), 0, SuperWords());
    forall j | 0 <= j < 8 ensures Word(s, j) == SuperWords()[j] {
      WordsSet(Zeroes(BSIZE), 0, SuperWords(), j);
    }
  }

  lemma EmptyInv(disk: map<nat, Sector>)
    requires Sectors(disk) && forall b :: NMETA <= b < FSSIZE ==> disk[b] == Zeroes(BSIZE)
    ensures Inv(Fs(disk, map[], map[], NMETA, map[])) && AllTight(Fs(disk, map[], map[], NMETA, map[]))
  {
    hide Zeroes;
  }

  /** The bits set are those of the blocks below `n`. */
  predicate MarksBelow(buf: Sector, n: nat) {
    |buf| == BSIZE && forall b :: 0 <= b < B.BPB ==> (B.Get(buf, b) <==> b < n)
  }

  method MarkAll(used: nat) returns (buf: Sector)
    requires used <= B.BPB
    ensures |buf| == BSIZE && MarksBelow(buf, used)
  {
    hide B.Get, B.Set;
    buf := Zeroes(BSIZE);
    NoMarks(buf);
    var i := 0;
    while i < used
      invariant 0 <= i <= used && MarksBelow(buf, i)
    {
      forall b | 0 <= b < B.BPB ensures B.Get(B.Set(buf, i), b) <==> b < i + 1 {
        B.GetSet(buf, i, b);
      }
      buf := B.Set(buf, i);
      i := i + 1;
    }
  }

  lemma NoMarks(buf: Sector)
    requires buf == Zeroes(BSIZE)
    ensures MarksBelow(buf, 0)
  {
    forall b | 0 <= b < B.BPB ensures !B.Get(buf, b) {
      B.NoBits(b % 8);
    }
  }

  /** The kernel finds in use exactly what mkfs handed out. */
  lemma HandedOver(buf: Sector, n: nat, b: nat)
    requires MarksBelow(buf, n) && b < FSSIZE
    ensures B.Shaped([buf], FSSIZE) && (b in B.InUse([buf], FSSIZE) <==> b < n)
  {
    hide B.Get;
    assert B.Marked([buf], b) <==> B.Get(buf, b);
  }

  lemma MetaTight(a: Fs, disk: map<nat, Sector>)
    requires Inv(a) && AllTight(a) && Sectors(disk) && SameData(a.disk, disk)
    ensures var u := a.(disk := disk);
            Inv(u) && AllTight(u) && forall j :: j in a.recs ==> Content(u, j) == Content(a, j)
  {
    hide Word, BlockOk, Content, Files, Owners, Blank, FileOk;
    var u := a.(disk := disk);
    MetaInv(a, disk);
    forall j | j in a.recs
      ensures Content(u, j) == Content(a, j) && FileOk(u, j) && |u.recs[j].addrs| == NDIRECT + 1 && Tight(u, j)
    {
      MetaContent(a, disk, j);
      InvFile(u, j);
    }
  }

  /** A block of file data, or the indirect block, of some inode. */
  ghost predicate InFile(fs: Fs, b: nat)
    requires Inv(fs)
  {
    exists i :: i in fs.recs && OfFile(fs, i, b)
  }

  ghost predicate OfFile(fs: Fs, i: nat, b: nat)
    requires Inv(fs) && i in fs.recs
  {
    && FileOk(fs, i)
    && ((b != 0 && fs.recs[i].addrs[NDIRECT] == b) || exists k :: 0 <= k < fs.nb[i] && Addr(fs, i, k) == b)
  }

  /** Below `freeblock` lie the metadata and the files' blocks, and nothing else: none is lost. */
  lemma UsedExactly(fs: Fs, b: nat)
    requires Inv(fs)
    ensures b < fs.free <==> b < NMETA || InFile(fs, b)
  {
    hide Word;
    if NMETA <= b < fs.free {
      assert OwnerOk(fs, b);
      var i := fs.owner[b].i;
      InvFile(fs, i);
      assert OfFile(fs, i, b);
    }
    if InFile(fs, b) {
      var i :| i in fs.recs && OfFile(fs, i, b);
      if k :| 0 <= k < fs.nb[i] && Addr(fs, i, k) == b {
        BlockOwned(fs, i, k);
      } else {
        IndOwned(fs, i);
      }
    }
  }

  /**
   Kernel runs from the bitmap mkfs wrote: however `alloc` and `free` are called, no block of the
   metadata or of a file is handed out before a call has given it back.
   */
  lemma KernelRuns(fs: Fs, calls: seq<B.Call>, b: nat, j: nat)
    requires Inv(fs) && BMAPSTART in fs.disk && MarksBelow(fs.disk[BMAPSTART], fs.free)
    requires b < NMETA || InFile(fs, b)
    requires j < |B.Replies([fs.disk[BMAPSTART]], FSSIZE, calls)|
    requires B.Replies([fs.disk[BMAPSTART]], FSSIZE, calls)[j] == B.Got(b)
    ensures B.GivenBack(B.Replies([fs.disk[BMAPSTART]], FSSIZE, calls), b, 0, j)
  {
    hide B.Get, B.Replies, B.GivenBack, InFile, Inv;
    var buf := fs.disk[BMAPSTART];
    UsedExactly(fs, b);
    FreeFits(fs);
    assert B.Marked([buf], b) by {
      assert b < B.BPB && B.Get(buf, b);
    }
    B.NotBeforeFreed([buf], FSSIZE, calls, b, j);
  }

  lemma TableBut(disk: map<nat, Sector>, recs: map<nat, Dinode>, but: nat)
    requires Sectors(disk) && Table(disk, recs, 0) && 0 !in recs
    ensures Table(disk, recs, but)
    ensures but in recs ==> InodeNumber(but) && Rec(disk[but / IPB + INODESTART], but % IPB) == recs[but]
  {
    hide Rec;
  }

  lemma LongerKeys(a: Fs, b: Fs, i: nat, more: seq<bv8>)
    requires Longer(a, b, i, more)
    ensures b.recs.Keys == a.recs.Keys
  {
  }

  lemma RecBound(disk: map<nat, Sector>, i: nat)
    requires Sectors(disk) && InodeNumber(i)
    ensures var d := Rec(disk[i / IPB + INODESTART], i % IPB);
            d.mode < WORD && d.links < WORD
  {
  }

  /** What is written back fits its words. */
  lemma SizedNow(fs: Fs, i: nat)
    requires Inv(fs) && i in fs.recs && fs.recs[i].mode < WORD && fs.recs[i].links < WORD
    ensures Sized(fs.recs[i])
  {
    hide Word;
    InvFile(fs, i);
    var d := fs.recs[i];
    forall k | 0 <= k < NDIRECT ensures d.addrs[k] < WORD {
      assert BlockOk(fs, i, k);
    }
  }

  /** The bytes fit in the file and on the disk. */
  predicate Room(fs: Fs, i: nat, n: nat)
    requires i in fs.recs
  {
    var size := fs.recs[i].size;
    size + n <= MAXFILE * BSIZE && fs.free + Cost(Blocks(size + n)) - Cost(Blocks(size)) <= FSSIZE
  }

  /** File `i` has `more` at its end; every other file, and every other record, is as it was. */
  ghost predicate Longer(a: Fs, b: Fs, i: nat, more: seq<bv8>) {
    && Inv(a) && Inv(b) && i in a.recs && b.recs.Keys == a.recs.Keys
    && Content(b, i) == Content(a, i) + more && b.recs[i].mode == a.recs[i].mode && b.recs[i].links == a.recs[i].links
    && (forall j :: j in a.recs && j != i ==>
          Content(b, j) == Content(a, j) && b.recs[j] == a.recs[j] && b.nb[j] == a.nb[j])
  }

  lemma LongerNone(a: Fs, i: nat)
    requires Inv(a) && i in a.recs
    ensures Longer(a, a, i, [])
  {
  }

  lemma LongerTrans(a: Fs, b: Fs, c: Fs, i: nat, more: seq<bv8>, yet: seq<bv8>)
    requires Longer(a, b, i, more) && Longer(b, c, i, yet)
    ensures Longer(a, c, i, more + yet)
  {
    hide Inv, Content;
  }

  lemma TightAt(a: Fs, i: nat)
    requires Inv(a) && AllTight(a) && i in a.recs
    ensures i in a.nb && |a.recs[i].addrs| == NDIRECT + 1 && Tight(a, i) && a.recs[i].size <= MAXFILE * BSIZE
    ensures a.free <= FSSIZE
  {
    InvFile(a, i);
  }

  /** Later bytes never need fewer blocks. */
  lemma CostGrows(off: nat, n: nat, end: nat)
    requires 0 < n && off % BSIZE + n <= BSIZE && off + n <= end
    ensures Blocks(off + n) == off / BSIZE + 1 && off / BSIZE <= Blocks(off) <= off / BSIZE + 1
    ensures Cost(off / BSIZE + 1) <= Cost(Blocks(end))
  {
  }

  lemma Round(a: Fs, b: Fs, i: nat, addrs: seq<nat>, x: nat, chunk: seq<bv8>)
    requires Inv(a) && i in a.recs && Grown(a, b, i, a.recs[i].size / BSIZE, addrs, x)
    requires a.recs[i].size % BSIZE + |chunk| <= BSIZE
    ensures var off := a.recs[i].size;
            && Sectors(b.disk) && i in b.recs && i in b.nb && FileOk(b, i)
            && off / BSIZE < b.nb[i] && Addr(b, i, off / BSIZE) == x
            && NMETA <= x < FSSIZE && b.recs[i].size == off
            && var u := Appended(b, i, chunk);
               && Inv(u) && Longer(a, u, i, chunk) && u.disk == b.disk[x := Splice(b.disk[x], off % BSIZE, chunk)]
               && u.recs == b.recs[i := a.recs[i].(addrs := addrs, size := off + |chunk|)]
               && u.nb == b.nb && u.nb[i] == off / BSIZE + 1 && u.free == b.free && u.owner == b.owner
  {
    hide Word, BlockOk, Files, Owners, Blank, FileOk, Content;
    AppendedInv(b, i, chunk);
    forall j | j in a.recs ensures Content(b, j) == Content(a, j) {
      ExtendsContent(a, b, j);
    }
  }

  lemma MetaLonger(a: Fs, b: Fs, disk: map<nat, Sector>, i: nat, more: seq<bv8>)
    requires Longer(a, b, i, more) && AllTight(a) && Sectors(disk) && SameData(b.disk, disk) && Tight(b, i)
    ensures var u := b.(disk := disk);
            Inv(u) && Longer(a, u, i, more) && AllTight(u)
  {
    hide Word, BlockOk, Content, Files, Owners, Blank, FileOk;
    var u := b.(disk := disk);
    MetaInv(b, disk);
    forall j | j in b.recs
      ensures Content(u, j) == Content(b, j) && FileOk(u, j) && |u.recs[j].addrs| == NDIRECT + 1 && Tight(u, j)
    {
      MetaContent(b, disk, j);
      InvFile(u, j);
    }
  }

  lemma FreeFits(fs: Fs)
    requires Inv(fs)
    ensures fs.free <= FSSIZE && fs.recs.Keys == fs.nb.Keys
  {
  }

  lemma GrownTrans(a: Fs, b: Fs, c: Fs, i: nat, fbn: nat, addrs: seq<nat>, x: nat)
    requires Extends(a, b) && i in a.recs && Grown(b, c, i, fbn, addrs, x) && b.nb == a.nb
    requires b.recs == a.recs[i := a.recs[i].(addrs := addrs)]
    ensures Grown(a, c, i, fbn, addrs, x)
  {
    hide Word, Zeroes, BlockOk, Files, Owners, Blank, FileOk;
    forall j, k | j in a.recs && 0 <= k < a.nb[j] ensures SameBlock(a, c, j, k) {
      assert SameBlock(a, b, j, k) && SameBlock(b, c, j, k);
    }
  }

  lemma IndStep(a: Fs, i: nat)
    requires Inv(a) && i in a.recs && FileOk(a, i) && a.recs[i].addrs[NDIRECT] == 0 && a.free < FSSIZE
    ensures var u := AddInd(a, i);
            && Extends(a, u) && Inv(u) && u.disk == a.disk && u.nb == a.nb && u.free == a.free + 1
            && u.recs == a.recs[i := a.recs[i].(addrs := a.recs[i].addrs[NDIRECT := a.free])]
  {
    hide Word, Zeroes, BlockOk, Files, Owners, Blank;
    AddIndInv(a, i);
  }

  lemma EntryStep(a: Fs, i: nat, fbn: nat)
    requires Inv(a) && i in a.recs && i in a.nb && a.nb[i] == fbn && NDIRECT <= fbn < MAXFILE && a.free < FSSIZE
    requires FileOk(a, i)
    requires 0 < a.recs[i].addrs[NDIRECT] < FSSIZE
    ensures var u := AddEntry(a, i);
            && Grown(a, u, i, fbn, a.recs[i].addrs, a.free) && Inv(u)
            && u.free == a.free + 1 && u.recs == a.recs && i in u.nb
            && NMETA <= a.recs[i].addrs[NDIRECT]
            && var ind := a.recs[i].addrs[NDIRECT];
            u.disk == a.disk[ind := SetWord(a.disk[ind], fbn - NDIRECT, a.free)]
  {
    hide Word, Zeroes, BlockOk, Files, Owners, Blank, SetWord;
    AddEntryInv(a, i);
    IndOwned(a, i);
    InvFile(AddEntry(a, i), i);
    WordSet(a.disk[a.recs[i].addrs[NDIRECT]], fbn - NDIRECT, a.free, fbn - NDIRECT);
  }

  /** Block `fbn` of file `i` is now mapped, at `x`; all else is as it was. */
  ghost predicate Grown(a: Fs, b: Fs, i: nat, fbn: nat, addrs: seq<nat>, x: nat) {
    && Extends(a, b) && i in a.recs && fbn < MAXFILE && b.nb == a.nb[i := fbn + 1]
    && b.recs == a.recs[i := a.recs[i].(addrs := addrs)] && FileOk(b, i) && x == Addr(b, i, fbn) && NMETA <= x < FSSIZE
  }

  lemma GrownRefl(a: Fs, i: nat, fbn: nat)
    requires Inv(a) && i in a.recs && a.nb[i] == fbn + 1 && fbn < MAXFILE && FileOk(a, i)
    ensures Grown(a, a, i, fbn, a.recs[i].addrs, Addr(a, i, fbn))
  {
    hide Word, Zeroes, BlockOk, Inv;
    ExtendsRefl(a);
    MappedIff(a, i, fbn);
    assert a.nb == a.nb[i := fbn + 1];
  }

  lemma DirectStep(a: Fs, i: nat, fbn: nat)
    requires Inv(a) && i in a.recs && i in a.nb && a.nb[i] == fbn < NDIRECT && a.free < FSSIZE && FileOk(a, i)
    ensures var u := AddDirect(a, i);
            && Grown(a, u, i, fbn, a.recs[i].addrs[fbn := a.free], a.free) && Inv(u)
            && u.disk == a.disk && u.free == a.free + 1 && u.recs.Keys == a.recs.Keys
            && (forall j :: j in a.recs && j != i ==> u.recs[j] == a.recs[j]) && i in u.recs && i in u.nb
            && u.recs[i].addrs == a.recs[i].addrs[fbn := a.free] && u.nb[i] == fbn + 1
  {
    hide Word, Zeroes, BlockOk, Files, Owners, Blank;
    AddDirectInv(a, i);
    InvFile(AddDirect(a, i), i);
  }

  lemma MappedIff(fs: Fs, i: nat, k: nat)
    requires Inv(fs) && i in fs.recs && k < MAXFILE && |fs.recs[i].addrs| == NDIRECT + 1
    requires k >= NDIRECT ==> fs.recs[i].addrs[NDIRECT] != 0
    ensures Shape(fs) && FileOk(fs, i) && fs.recs[i].addrs[NDIRECT] < FSSIZE
    ensures if k < fs.nb[i] then NMETA <= Addr(fs, i, k) < FSSIZE else Addr(fs, i, k) == 0
  {
    assert FileOk(fs, i);
    assert BlockOk(fs, i, k);
  }

  lemma ExtendsRefl(fs: Fs)
    requires Inv(fs)
    ensures Extends(fs, fs)
  {
    hide Word, Zeroes;
    forall i, k | i in fs.recs && 0 <= k < fs.nb[i] ensures SameBlock(fs, fs, i, k) {
      assert FileOk(fs, i) && BlockOk(fs, i, k);
    }
  }

  /** Only the record of `but` changed. */
  lemma TableRecs(disk: map<nat, Sector>, a: map<nat, Dinode>, b: map<nat, Dinode>, but: nat)
    requires Sectors(disk) && Table(disk, a, but) && b.Keys == a.Keys && forall j :: j in a && j != but ==> b[j] == a[j]
    ensures Table(disk, b, but)
  {
  }

  lemma NewInode(a: Fs, disk: map<nat, Sector>, i: nat, d: Dinode)
    requires Inv(a) && AllTight(a) && Sectors(disk) && SameData(a.disk, disk) && i !in a.recs && Fresh(d)
    ensures var u := NewFile(a.(disk := disk), i, d);
            Inv(u) && AllTight(u) && Content(u, i) == [] && forall j :: j in a.recs ==> Content(u, j) == Content(a, j)
  {
    hide Rec, Inv, Content, Word, FileOk;
    var b := a.(disk := disk);
    MetaInv(a, disk);
    NewFileInv(b, i, d);
    var u := NewFile(b, i, d);
    forall j | j in a.recs ensures Content(u, j) == Content(a, j) {
      MetaContent(a, disk, j);
      NewFileContent(b, i, d, j);
    }
    InvShape(u);
    forall j | j in u.recs ensures FileOk(u, j) && |u.recs[j].addrs| == NDIRECT + 1 && Tight(u, j) {
      InvFile(u, j);
      if j != i {
        InvFile(a, j);
      }
    }
  }

  lemma InvFile(fs: Fs, j: nat)
    requires Inv(fs) && j in fs.recs
    ensures j in fs.nb && FileOk(fs, j) && |fs.recs[j].addrs| == NDIRECT + 1 && fs.nb[j] <= MAXFILE
    ensures fs.recs[j].size <= fs.nb[j] * BSIZE
  {
  }

  lemma InvShape(fs: Fs)
    requires Inv(fs)
    ensures Shape(fs)
  {
  }
}
