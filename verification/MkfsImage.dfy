/**
 The image mkfs builds: sectors of bytes, inode records and indirect blocks in them, the
 blocks each file owns, and a file's bytes as read back through its addresses.
 */
module MkfsImage {
  import opened ByteCodec
  import opened Collections

  const BSIZE := 1024
  const NDIRECT := 12
  const NINDIRECT := 256
  const MAXFILE := NDIRECT + NINDIRECT
  const FSSIZE := 2000
  const NINODES := 200
  /** Inode records per block; each is sixteen words. */
  const IPB := 16
  const NLOG := 30
  const NINODEBLOCKS := NINODES / IPB + 1
  const INODESTART := 2 + NLOG
  const BMAPSTART := INODESTART + NINODEBLOCKS
  /** The first block after boot, super block, log, inodes and bitmap. */
  const NMETA := BMAPSTART + 1
  const WORD := 0x1_0000_0000
  const FSMAGIC := 0x10203040

  type Sector = seq<bv8>

  function Zeroes(n: nat): (z: Sector)
    ensures |z| == n && forall i :: 0 <= i < n ==> z[i] == 0
  {
    if n == 0 then [] else Zeroes(n - 1) + [0]
  }

  // ----- words in sectors -----

  /** The little-endian word at index `i`. */
  function Word(s: Sector, i: nat): nat
    requires |s| == BSIZE && i < NINDIRECT
  {
    Num(s[4 * i]) + 256 * Num(s[4 * i + 1]) + 65536 * Num(s[4 * i + 2]) + 16777216 * Num(s[4 * i + 3])
  }

  function SetWord(s: Sector, i: nat, v: nat): (r: Sector)
    requires |s| == BSIZE && i < NINDIRECT
    ensures |r| == BSIZE
  {
    var low := s[4 * i := ByteOf(v)][4 * i + 1 := ByteOf(v / 256)];
    low[4 * i + 2 := ByteOf(v / 65536)][4 * i + 3 := ByteOf(v / 16777216)]
  }

  lemma Bytes(v: nat)
    requires v < WORD
    ensures v % 256 + 256 * (v / 256 % 256) + 65536 * (v / 65536 % 256) + 16777216 * (v / 16777216 % 256) == v
  {
    assert v / 65536 == v / 256 / 256;
    assert v / 16777216 == v / 65536 / 256;
  }

  lemma WordSet(s: Sector, i: nat, v: nat, j: nat)
    requires |s| == BSIZE && i < NINDIRECT && j < NINDIRECT && v < WORD
    ensures Word(SetWord(s, i, v), j) == if j == i then v else Word(s, j)
  {
    hide ByteOf, Num;
    if j == i {
      ByteBack(v);
      ByteBack(v / 256);
      ByteBack(v / 65536);
      ByteBack(v / 16777216);
      Bytes(v);
    }
  }

  lemma WordZero(i: nat)
    requires i < NINDIRECT
    ensures Word(Zeroes(BSIZE), i) == 0
  {
    hide Zeroes;
  }

  // ----- inode records -----

  /** An inode: two words of type, device numbers and link count, the size, the addresses. */
  datatype Dinode = Dinode(mode: nat, links: nat, size: nat, addrs: seq<nat>)

  predicate Sized(d: Dinode) {
    && |d.addrs| == NDIRECT + 1 && d.mode < WORD && d.links < WORD && d.size < WORD
    && forall k :: 0 <= k <= NDIRECT ==> d.addrs[k] < WORD
  }

  /** Record `k` of an inode block. */
  function Rec(s: Sector, k: nat): (d: Dinode)
    requires |s| == BSIZE && k < IPB
    ensures |d.addrs| == NDIRECT + 1
  {
    Dinode(Word(s, 16 * k), Word(s, 16 * k + 1), Word(s, 16 * k + 2), Addrs(s, k, NDIRECT + 1))
  }

  function Addrs(s: Sector, k: nat, n: nat): (r: seq<nat>)
    requires |s| == BSIZE && k < IPB && n <= NDIRECT + 1
    ensures |r| == n && forall j :: 0 <= j < n ==> r[j] == Word(s, 16 * k + 3 + j)
  {
    if n == 0 then [] else Addrs(s, k, n - 1) + [Word(s, 16 * k + 2 + n)]
  }

  function SetWords(s: Sector, at: nat, ws: seq<nat>): (r: Sector)
    requires |s| == BSIZE && at + |ws| <= NINDIRECT
    ensures |r| == BSIZE
    decreases |ws|
  {
    if ws == [] then s else SetWords(SetWord(s, at, ws[0]), at + 1, ws[1..])
  }

  lemma {:induction false} WordsSet(s: Sector, at: nat, ws: seq<nat>, j: nat)
    requires |s| == BSIZE && at + |ws| <= NINDIRECT && j < NINDIRECT && forall i :: 0 <= i < |ws| ==> ws[i] < WORD
    ensures Word(SetWords(s, at, ws), j) == if at <= j < at + |ws| then ws[j - at] else Word(s, j)
    decreases |ws|
  {
    hide Word, SetWord;
    if ws != [] {
      WordsSet(SetWord(s, at, ws[0]), at + 1, ws[1..], j);
      WordSet(s, at, ws[0], j);
    }
  }

  function PutRec(s: Sector, k: nat, d: Dinode): (r: Sector)
    requires |s| == BSIZE && k < IPB && |d.addrs| == NDIRECT + 1
    ensures |r| == BSIZE
  {
    SetWords(s, 16 * k, [d.mode, d.links, d.size] + d.addrs)
  }

  /** A record written is read back, and no other record of the block changes. */
  lemma RecPut(s: Sector, k: nat, d: Dinode, j: nat)
    requires |s| == BSIZE && k < IPB && Sized(d) && j < IPB
    ensures Rec(PutRec(s, k, d), j) == if j == k then d else Rec(s, j)
  {
    hide Word, SetWords;
    var ws := [d.mode, d.links, d.size] + d.addrs;
    forall i | 0 <= i < NINDIRECT
      ensures Word(PutRec(s, k, d), i) == if 16 * k <= i < 16 * k + 16 then ws[i - 16 * k] else Word(s, i)
    {
      WordsSet(s, 16 * k, ws, i);
    }
    var r := Rec(PutRec(s, k, d), j);
    forall a | 0 <= a <= NDIRECT ensures r.addrs[a] == if j == k then d.addrs[a] else Rec(s, j).addrs[a] {
      assert r.addrs[a] == Word(PutRec(s, k, d), 16 * j + 3 + a);
    }
    assert r.addrs == if j == k then d.addrs else Rec(s, j).addrs;
  }

  // ----- the files of an image -----

  /** What a block holds: block `k` of file `i`, or that file's indirect block. */
  datatype Slot = Data(i: nat, k: nat) | Ind(i: nat)

  /**
   The image while it is built: sectors, inode records by number, how many blocks each
   file has mapped, the next free block, and the owner of every block handed out.
   */
  datatype Fs = Fs(disk: map<nat, Sector>, recs: map<nat, Dinode>, nb: map<nat, nat>, free: nat, owner: map<nat, Slot>)

  predicate Sectors(disk: map<nat, Sector>) {
    forall b :: 0 <= b < FSSIZE ==> b in disk && |disk[b]| == BSIZE
  }

  predicate Owns(fs: Fs, b: nat, slot: Slot) {
    NMETA <= b < fs.free && b in fs.owner && fs.owner[b] == slot
  }

  /** The address of block `k` of a file. */
  function Addr(fs: Fs, i: nat, k: nat): nat
    requires Sectors(fs.disk) && i in fs.recs && |fs.recs[i].addrs| == NDIRECT + 1 && k < MAXFILE
    requires k >= NDIRECT ==> fs.recs[i].addrs[NDIRECT] < FSSIZE
  {
    if k < NDIRECT then fs.recs[i].addrs[k] else Word(fs.disk[fs.recs[i].addrs[NDIRECT]], k - NDIRECT)
  }

  /** The file's mapped blocks are its own, and nothing past them is mapped. */
  predicate FileOk(fs: Fs, i: nat)
    requires Sectors(fs.disk) && i in fs.recs && i in fs.nb
  {
    var d := fs.recs[i];
    && |d.addrs| == NDIRECT + 1 && fs.nb[i] <= MAXFILE && d.size <= fs.nb[i] * BSIZE
    && (d.addrs[NDIRECT] == 0 || (d.addrs[NDIRECT] < FSSIZE && Owns(fs, d.addrs[NDIRECT], Ind(i))))
    && (fs.nb[i] > NDIRECT ==> d.addrs[NDIRECT] != 0)
    && (forall k :: 0 <= k < NDIRECT ==> BlockOk(fs, i, k))
    && (d.addrs[NDIRECT] != 0 ==> forall k :: NDIRECT <= k < MAXFILE ==> BlockOk(fs, i, k))
  }

  predicate BlockOk(fs: Fs, i: nat, k: nat)
    requires Sectors(fs.disk) && i in fs.recs && i in fs.nb && |fs.recs[i].addrs| == NDIRECT + 1 && k < MAXFILE
    requires k >= NDIRECT ==> fs.recs[i].addrs[NDIRECT] < FSSIZE
  {
    if k < fs.nb[i] then Owns(fs, Addr(fs, i, k), Data(i, k)) else Addr(fs, i, k) == 0
  }

  /** Every block handed out is found again through its owner's addresses. */
  predicate OwnerOk(fs: Fs, b: nat)
    requires Sectors(fs.disk) && b in fs.owner
  {
    match fs.owner[b]
    case Data(i, k) => i in fs.recs && i in fs.nb && FileOk(fs, i) && k < fs.nb[i] && Addr(fs, i, k) == b
    case Ind(i) => i in fs.recs && |fs.recs[i].addrs| == NDIRECT + 1 && fs.recs[i].addrs[NDIRECT] == b
  }

  ghost predicate Shape(fs: Fs) {
    && Sectors(fs.disk) && NMETA <= fs.free <= FSSIZE && fs.recs.Keys == fs.nb.Keys
    && forall b :: b in fs.owner <==> NMETA <= b < fs.free
  }

  predicate Files(fs: Fs)
    requires Sectors(fs.disk) && fs.recs.Keys == fs.nb.Keys
  {
    forall i :: i in fs.recs ==> FileOk(fs, i)
  }

  predicate Owners(fs: Fs)
    requires Sectors(fs.disk)
  {
    forall b :: b in fs.owner ==> OwnerOk(fs, b)
  }

  predicate Blank(fs: Fs)
    requires Sectors(fs.disk)
  {
    forall b :: fs.free <= b < FSSIZE ==> fs.disk[b] == Zeroes(BSIZE)
  }

  ghost predicate Inv(fs: Fs) {
    Shape(fs) && Files(fs) && Owners(fs) && Blank(fs)
  }

  /** Byte `o` of file `i`. */
  ghost function ByteAt(fs: Fs, i: nat, o: nat): bv8
    requires Inv(fs) && i in fs.recs && o < fs.nb[i] * BSIZE
  {
    assert FileOk(fs, i);
    assert BlockOk(fs, i, o / BSIZE);
    fs.disk[Addr(fs, i, o / BSIZE)][o % BSIZE]
  }

  /** The file as read back through its addresses. */
  ghost function Content(fs: Fs, i: nat): (c: seq<bv8>)
    requires Inv(fs) && i in fs.recs
    ensures |c| == fs.recs[i].size
  {
    assert FileOk(fs, i);
    seq(fs.recs[i].size, o requires 0 <= o < fs.recs[i].size => ByteAt(fs, i, o))
  }

  /** No two files share a block, data or indirect, nor do two blocks of one file. */
  lemma Disjoint(fs: Fs, i: nat, k: nat, j: nat, m: nat)
    requires Inv(fs) && i in fs.recs && j in fs.recs && k < fs.nb[i] && m < fs.nb[j]
    ensures FileOk(fs, i) && FileOk(fs, j)
    ensures Addr(fs, i, k) == Addr(fs, j, m) ==> i == j && k == m
    ensures fs.recs[j].addrs[NDIRECT] != Addr(fs, i, k)
    ensures i != j && fs.recs[i].addrs[NDIRECT] != 0 ==> fs.recs[i].addrs[NDIRECT] != fs.recs[j].addrs[NDIRECT]
  {
    assert FileOk(fs, i) && FileOk(fs, j);
    assert BlockOk(fs, i, k) && BlockOk(fs, j, m);
  }

  // ----- the steps of iappend -----

  /** The next free block becomes direct block `nb` of file `i`. */
  function AddDirect(fs: Fs, i: nat): Fs
    requires i in fs.recs && i in fs.nb && |fs.recs[i].addrs| == NDIRECT + 1 && fs.nb[i] < NDIRECT
  {
    var d := fs.recs[i];
    fs.(recs := fs.recs[i := d.(addrs := d.addrs[fs.nb[i] := fs.free])], nb := fs.nb[i := fs.nb[i] + 1],
        free := fs.free + 1, owner := fs.owner[fs.free := Data(i, fs.nb[i])])
  }

  /** The next free block becomes the indirect block of file `i`. */
  function AddInd(fs: Fs, i: nat): Fs
    requires i in fs.recs && |fs.recs[i].addrs| == NDIRECT + 1
  {
    var d := fs.recs[i];
    fs.(recs := fs.recs[i := d.(addrs := d.addrs[NDIRECT := fs.free])], free := fs.free + 1,
        owner := fs.owner[fs.free := Ind(i)])
  }

  /** The next free block is entered in the indirect block of file `i`. */
  function AddEntry(fs: Fs, i: nat): Fs
    requires Sectors(fs.disk) && i in fs.recs && i in fs.nb && |fs.recs[i].addrs| == NDIRECT + 1
    requires NDIRECT <= fs.nb[i] < MAXFILE && fs.recs[i].addrs[NDIRECT] < FSSIZE
  {
    var ind := fs.recs[i].addrs[NDIRECT];
    fs.(disk := fs.disk[ind := SetWord(fs.disk[ind], fs.nb[i] - NDIRECT, fs.free)], nb := fs.nb[i := fs.nb[i] + 1],
        free := fs.free + 1, owner := fs.owner[fs.free := Data(i, fs.nb[i])])
  }

  lemma AddDirectFile(fs: Fs, i: nat, j: nat)
    requires Inv(fs) && i in fs.recs && fs.nb[i] < NDIRECT && fs.free < FSSIZE && j in fs.recs && FileOk(fs, i)
    ensures FileOk(AddDirect(fs, i), j)
  {
    hide Word, Zeroes, Owners, Blank;
    assert FileOk(fs, j);
    var u := AddDirect(fs, i);
    forall k | 0 <= k < MAXFILE && (k >= NDIRECT ==> u.recs[j].addrs[NDIRECT] != 0) ensures BlockOk(u, j, k) {
      AddDirectBlock(fs, i, j, k);
    }
  }

  lemma AddDirectBlock(fs: Fs, i: nat, j: nat, k: nat)
    requires Inv(fs) && i in fs.recs && FileOk(fs, i) && fs.nb[i] < NDIRECT && fs.free < FSSIZE && j in fs.recs
    requires FileOk(fs, j)
    requires k < MAXFILE && (k >= NDIRECT ==> fs.recs[j].addrs[NDIRECT] != 0)
    ensures |AddDirect(fs, i).recs[j].addrs| == NDIRECT + 1
    ensures AddDirect(fs, i).recs[j].addrs[NDIRECT] == fs.recs[j].addrs[NDIRECT]
    ensures BlockOk(AddDirect(fs, i), j, k)
  {
    hide Word, Zeroes, Owners, Blank, Files;
    assert BlockOk(fs, j, k);
  }

  lemma AddIndFile(fs: Fs, i: nat, j: nat)
    requires Inv(fs) && i in fs.recs && FileOk(fs, i) && fs.recs[i].addrs[NDIRECT] == 0 && fs.free < FSSIZE
    requires j in fs.recs
    ensures FileOk(AddInd(fs, i), j)
  {
    hide Word, Zeroes, Owners, Blank;
    assert FileOk(fs, j);
    var u := AddInd(fs, i);
    forall k | 0 <= k < MAXFILE && (k >= NDIRECT ==> u.recs[j].addrs[NDIRECT] != 0) ensures BlockOk(u, j, k) {
      AddIndBlock(fs, i, j, k);
    }
  }

  lemma AddIndBlock(fs: Fs, i: nat, j: nat, k: nat)
    requires Inv(fs) && i in fs.recs && FileOk(fs, i) && fs.recs[i].addrs[NDIRECT] == 0 && fs.free < FSSIZE
    requires j in fs.recs && FileOk(fs, j) && k < MAXFILE && |AddInd(fs, i).recs[j].addrs| == NDIRECT + 1
    requires k >= NDIRECT ==> 0 < AddInd(fs, i).recs[j].addrs[NDIRECT] < FSSIZE
    ensures BlockOk(AddInd(fs, i), j, k)
  {
    hide Word, Zeroes, Owners, Files;
    if j == i && k >= NDIRECT {
      WordZero(k - NDIRECT);
    } else {
      assert BlockOk(fs, j, k);
    }
  }

  lemma AddEntryFile(fs: Fs, i: nat, j: nat)
    requires Inv(fs) && i in fs.recs && FileOk(fs, i) && fs.free < FSSIZE && j in fs.recs
    requires NDIRECT <= fs.nb[i] < MAXFILE && fs.recs[i].addrs[NDIRECT] != 0
    ensures FileOk(AddEntry(fs, i), j)
  {
    hide Word, Zeroes, SetWord, Owners, Blank;
    assert FileOk(fs, j);
    var u := AddEntry(fs, i);
    forall k | 0 <= k < MAXFILE && (k >= NDIRECT ==> u.recs[j].addrs[NDIRECT] != 0) ensures BlockOk(u, j, k) {
      AddEntryBlock(fs, i, j, k);
    }
  }

  lemma AddEntryBlock(fs: Fs, i: nat, j: nat, k: nat)
    requires Inv(fs) && i in fs.recs && FileOk(fs, i) && fs.free < FSSIZE && j in fs.recs && FileOk(fs, j)
    requires NDIRECT <= fs.nb[i] < MAXFILE && fs.recs[i].addrs[NDIRECT] != 0 && Sectors(AddEntry(fs, i).disk)
    requires k < MAXFILE && (k >= NDIRECT ==> fs.recs[j].addrs[NDIRECT] != 0)
    ensures BlockOk(AddEntry(fs, i), j, k)
  {
    hide Word, Zeroes, SetWord, Owners, Blank, Files;
    assert BlockOk(fs, j, k);
    if j == i && k >= NDIRECT {
      WordSet(fs.disk[fs.recs[i].addrs[NDIRECT]], fs.nb[i] - NDIRECT, fs.free, k - NDIRECT);
    }
  }

  /** `b` maps what `a` maps, at the same addresses, to the same bytes. */
  ghost predicate Extends(a: Fs, b: Fs) {
    && Inv(a) && Inv(b) && b.recs.Keys == a.recs.Keys
    && forall i, k :: i in a.recs && 0 <= k < a.nb[i] ==> SameBlock(a, b, i, k)
  }

  ghost predicate SameBlock(a: Fs, b: Fs, i: nat, k: nat)
    requires Inv(a) && Inv(b) && i in a.recs && i in b.recs
  {
    && FileOk(a, i) && FileOk(b, i) && k < a.nb[i] && k < b.nb[i]
    && Addr(b, i, k) == Addr(a, i, k) < FSSIZE && b.disk[Addr(a, i, k)] == a.disk[Addr(a, i, k)]
  }

  lemma AddDirectInv(fs: Fs, i: nat)
    requires Inv(fs) && i in fs.recs && FileOk(fs, i) && |fs.recs[i].addrs| == NDIRECT + 1 && fs.nb[i] < NDIRECT
    requires fs.free < FSSIZE
    ensures Extends(fs, AddDirect(fs, i))
  {
    hide Word, Zeroes, FileOk;
    var u := AddDirect(fs, i);
    forall j | j in u.recs ensures FileOk(u, j) {
      AddDirectFile(fs, i, j);
    }
    forall b | b in u.owner ensures OwnerOk(u, b) {
      AddDirectOwner(fs, i, b);
    }
    forall j, k | j in fs.recs && 0 <= k < fs.nb[j] ensures SameBlock(fs, u, j, k) {
      AddDirectSame(fs, i, j, k);
    }
  }

  lemma AddDirectOwner(fs: Fs, i: nat, b: nat)
    requires Inv(fs) && i in fs.recs && FileOk(fs, i) && fs.nb[i] < NDIRECT && fs.free < FSSIZE
    requires b in AddDirect(fs, i).owner
    ensures OwnerOk(AddDirect(fs, i), b)
  {
    hide Word, Zeroes, BlockOk;
    if b == fs.free {
      AddDirectFile(fs, i, i);
    } else {
      assert OwnerOk(fs, b);
      AddDirectFile(fs, i, fs.owner[b].i);
    }
  }

  lemma AddDirectSame(fs: Fs, i: nat, j: nat, k: nat)
    requires Inv(fs) && i in fs.recs && FileOk(fs, i) && fs.nb[i] < NDIRECT && fs.free < FSSIZE && j in fs.recs
    requires k < fs.nb[j]
    ensures var u := AddDirect(fs, i);
            FileOk(fs, j) && FileOk(u, j) && Addr(u, j, k) == Addr(fs, j, k) < FSSIZE
  {
    hide Word, Zeroes;
    AddDirectFile(fs, i, j);
    assert FileOk(fs, j) && BlockOk(fs, j, k);
  }

  lemma AddIndInv(fs: Fs, i: nat)
    requires Inv(fs) && i in fs.recs && FileOk(fs, i) && |fs.recs[i].addrs| == NDIRECT + 1
    requires fs.recs[i].addrs[NDIRECT] == 0 && fs.free < FSSIZE
    ensures Extends(fs, AddInd(fs, i))
  {
    hide Word, Zeroes, FileOk;
    var u := AddInd(fs, i);
    forall j | j in u.recs ensures FileOk(u, j) {
      AddIndFile(fs, i, j);
    }
    forall b | b in u.owner ensures OwnerOk(u, b) {
      AddIndOwner(fs, i, b);
    }
    forall j, k | j in fs.recs && 0 <= k < fs.nb[j] ensures SameBlock(fs, u, j, k) {
      AddIndSame(fs, i, j, k);
    }
  }

  lemma AddIndOwner(fs: Fs, i: nat, b: nat)
    requires Inv(fs) && i in fs.recs && FileOk(fs, i) && fs.recs[i].addrs[NDIRECT] == 0 && fs.free < FSSIZE
    requires b in AddInd(fs, i).owner
    ensures OwnerOk(AddInd(fs, i), b)
  {
    hide Word, Zeroes, BlockOk;
    if b == fs.free {
      AddIndFile(fs, i, i);
    } else {
      assert OwnerOk(fs, b);
      AddIndFile(fs, i, fs.owner[b].i);
    }
  }

  lemma AddIndSame(fs: Fs, i: nat, j: nat, k: nat)
    requires Inv(fs) && i in fs.recs && FileOk(fs, i) && fs.recs[i].addrs[NDIRECT] == 0 && fs.free < FSSIZE
    requires j in fs.recs && k < fs.nb[j]
    ensures var u := AddInd(fs, i);
            FileOk(fs, j) && FileOk(u, j) && Addr(u, j, k) == Addr(fs, j, k) < FSSIZE
  {
    hide Word, Zeroes;
    AddIndFile(fs, i, j);
    assert FileOk(fs, j) && BlockOk(fs, j, k);
  }

  lemma AddEntryInv(fs: Fs, i: nat)
    requires Inv(fs) && i in fs.recs && FileOk(fs, i) && |fs.recs[i].addrs| == NDIRECT + 1
    requires fs.recs[i].addrs[NDIRECT] < FSSIZE
    requires NDIRECT <= fs.nb[i] < MAXFILE && fs.recs[i].addrs[NDIRECT] != 0 && fs.free < FSSIZE
    ensures Extends(fs, AddEntry(fs, i))
  {
    hide Word, Zeroes, FileOk, SetWord;
    var u := AddEntry(fs, i);
    forall j | j in u.recs ensures FileOk(u, j) {
      AddEntryFile(fs, i, j);
    }
    forall b | b in u.owner ensures OwnerOk(u, b) {
      AddEntryOwner(fs, i, b);
    }
    forall b | u.free <= b < FSSIZE ensures u.disk[b] == Zeroes(BSIZE) {
      IndOwned(fs, i);
    }
    forall j, k | j in fs.recs && 0 <= k < fs.nb[j] ensures SameBlock(fs, u, j, k) {
      AddEntrySame(fs, i, j, k);
    }
  }

  lemma IndOwned(fs: Fs, i: nat)
    requires Inv(fs) && i in fs.recs && FileOk(fs, i) && fs.recs[i].addrs[NDIRECT] != 0
    ensures Owns(fs, fs.recs[i].addrs[NDIRECT], Ind(i))
  {
  }

  lemma AddEntryOwner(fs: Fs, i: nat, b: nat)
    requires Inv(fs) && i in fs.recs && FileOk(fs, i) && fs.free < FSSIZE
    requires NDIRECT <= fs.nb[i] < MAXFILE && fs.recs[i].addrs[NDIRECT] != 0 && b in AddEntry(fs, i).owner
    ensures OwnerOk(AddEntry(fs, i), b)
  {
    hide Word, Zeroes, BlockOk, SetWord;
    if b == fs.free {
      AddEntryFile(fs, i, i);
      WordSet(fs.disk[fs.recs[i].addrs[NDIRECT]], fs.nb[i] - NDIRECT, fs.free, fs.nb[i] - NDIRECT);
    } else {
      assert OwnerOk(fs, b);
      AddEntryFile(fs, i, fs.owner[b].i);
      if fs.owner[b].Data? {
        AddEntrySame(fs, i, fs.owner[b].i, fs.owner[b].k);
      }
    }
  }

  lemma AddEntrySame(fs: Fs, i: nat, j: nat, k: nat)
    requires Inv(fs) && i in fs.recs && FileOk(fs, i) && fs.free < FSSIZE
    requires NDIRECT <= fs.nb[i] < MAXFILE && fs.recs[i].addrs[NDIRECT] != 0 && j in fs.recs && k < fs.nb[j]
    ensures var u := AddEntry(fs, i);
            FileOk(fs, j) && FileOk(u, j) && Addr(u, j, k) == Addr(fs, j, k) < FSSIZE
            && Addr(fs, j, k) != fs.recs[i].addrs[NDIRECT]
  {
    hide Word, Zeroes, SetWord;
    AddEntryFile(fs, i, j);
    assert FileOk(fs, j) && BlockOk(fs, j, k);
    if j == i && k >= NDIRECT {
      WordSet(fs.disk[fs.recs[i].addrs[NDIRECT]], fs.nb[i] - NDIRECT, fs.free, k - NDIRECT);
    }
  }

  // ----- data and sizes -----

  /** New contents for block `k` of file `i`. */
  function WriteBlock(fs: Fs, i: nat, k: nat, s: Sector): Fs
    requires Sectors(fs.disk) && i in fs.recs && i in fs.nb && FileOk(fs, i) && k < fs.nb[i]
  {
    fs.(disk := fs.disk[Addr(fs, i, k) := s])
  }

  lemma WriteFile(fs: Fs, i: nat, k: nat, s: Sector, j: nat)
    requires Inv(fs) && i in fs.recs && FileOk(fs, i) && k < fs.nb[i] && |s| == BSIZE && j in fs.recs
    ensures FileOk(fs, j) && FileOk(WriteBlock(fs, i, k, s), j)
    ensures forall m :: 0 <= m < fs.nb[j] ==> Addr(WriteBlock(fs, i, k, s), j, m) == Addr(fs, j, m)
  {
    hide Word, Zeroes;
    var u := WriteBlock(fs, i, k, s);
    assert FileOk(fs, j) && BlockOk(fs, i, k);
    forall m | 0 <= m < MAXFILE && (m >= NDIRECT ==> fs.recs[j].addrs[NDIRECT] != 0)
      ensures BlockOk(u, j, m) && Addr(u, j, m) == Addr(fs, j, m)
    {
      assert BlockOk(fs, j, m);
    }
  }

  lemma WriteInv(fs: Fs, i: nat, k: nat, s: Sector)
    requires Inv(fs) && i in fs.recs && FileOk(fs, i) && k < fs.nb[i] && |s| == BSIZE
    ensures Inv(WriteBlock(fs, i, k, s))
  {
    hide Word, Zeroes, BlockOk, OwnerOk;
    var u := WriteBlock(fs, i, k, s);
    BlockOwned(fs, i, k);
    forall j | j in u.recs ensures FileOk(u, j) {
      WriteFile(fs, i, k, s, j);
    }
    forall b | b in u.owner ensures OwnerOk(u, b) {
      WriteOwner(fs, i, k, s, b);
    }
  }

  lemma WriteOwner(fs: Fs, i: nat, k: nat, s: Sector, b: nat)
    requires Inv(fs) && i in fs.recs && FileOk(fs, i) && k < fs.nb[i] && |s| == BSIZE && b in fs.owner
    ensures OwnerOk(WriteBlock(fs, i, k, s), b)
  {
    hide Word, Zeroes, BlockOk, Blank;
    assert OwnerOk(fs, b);
    WriteFile(fs, i, k, s, fs.owner[b].i);
  }

  lemma BlockOwned(fs: Fs, i: nat, k: nat)
    requires Inv(fs) && i in fs.recs && FileOk(fs, i) && k < fs.nb[i]
    ensures Owns(fs, Addr(fs, i, k), Data(i, k))
  {
    assert BlockOk(fs, i, k);
  }

  /** A write changes that block of that file, and no other byte of any file. */
  lemma WriteByte(fs: Fs, i: nat, k: nat, s: Sector, j: nat, o: nat)
    requires Inv(fs) && i in fs.recs && FileOk(fs, i) && k < fs.nb[i] && |s| == BSIZE
    requires j in fs.recs && o < fs.nb[j] * BSIZE && Inv(WriteBlock(fs, i, k, s))
    ensures ByteAt(WriteBlock(fs, i, k, s), j, o) == if j == i && o / BSIZE == k then s[o % BSIZE] else ByteAt(fs, j, o)
  {
    hide Word, Zeroes, BlockOk, Files, Owners, Blank;
    WriteFile(fs, i, k, s, j);
    Disjoint(fs, i, k, j, o / BSIZE);
  }

  function Resize(fs: Fs, i: nat, n: nat): Fs
    requires i in fs.recs
  {
    fs.(recs := fs.recs[i := fs.recs[i].(size := n)])
  }

  /** The sectors past the metadata are the same. */
  predicate SameData(a: map<nat, Sector>, b: map<nat, Sector>)
    requires Sectors(a) && Sectors(b)
  {
    forall x :: NMETA <= x < FSSIZE ==> b[x] == a[x]
  }

  /** A file whose addresses, and the disk past the metadata, stay as they are. */
  lemma FileSame(a: Fs, b: Fs, j: nat)
    requires Sectors(a.disk) && j in a.recs && j in a.nb && FileOk(a, j) && j in b.recs && j in b.nb
    requires Sectors(b.disk) && SameData(a.disk, b.disk) && b.owner == a.owner && b.free == a.free && b.nb[j] == a.nb[j]
    requires b.recs[j].addrs == a.recs[j].addrs && b.recs[j].size <= b.nb[j] * BSIZE
    ensures FileOk(b, j) && forall m :: 0 <= m < a.nb[j] ==> Addr(b, j, m) == Addr(a, j, m)
  {
    hide Word, Zeroes;
    forall m | 0 <= m < MAXFILE && (m >= NDIRECT ==> a.recs[j].addrs[NDIRECT] != 0)
      ensures BlockOk(b, j, m) && Addr(b, j, m) == Addr(a, j, m)
    {
      assert BlockOk(a, j, m);
    }
  }

  lemma OwnersSame(a: Fs, b: Fs)
    requires Inv(a) && Sectors(b.disk) && SameData(a.disk, b.disk) && b.owner == a.owner && b.free == a.free
    requires forall j :: j in a.recs ==>
                           j in b.recs && j in b.nb && b.nb[j] == a.nb[j] && b.recs[j].addrs == a.recs[j].addrs
    requires forall j :: j in a.recs ==> b.recs[j].size <= b.nb[j] * BSIZE
    ensures Owners(b)
  {
    hide Word, Zeroes, FileOk;
    forall x | x in b.owner ensures OwnerOk(b, x) {
      assert OwnerOk(a, x);
      OwnerSame(a, b, x);
    }
  }

  lemma OwnerSame(a: Fs, b: Fs, x: nat)
    requires Inv(a) && Sectors(b.disk) && SameData(a.disk, b.disk) && b.owner == a.owner && b.free == a.free
    requires x in a.owner && OwnerOk(a, x)
    requires var j := a.owner[x].i;
             j in a.recs && j in b.recs && j in b.nb && b.nb[j] == a.nb[j] && b.recs[j].addrs == a.recs[j].addrs
             && b.recs[j].size <= b.nb[j] * BSIZE
    ensures OwnerOk(b, x)
  {
    hide Word, Zeroes, Owners, Blank, BlockOk;
    FileSame(a, b, a.owner[x].i);
  }

  lemma ResizeInv(fs: Fs, i: nat, n: nat)
    requires Inv(fs) && i in fs.recs && n <= fs.nb[i] * BSIZE
    ensures Inv(Resize(fs, i, n))
  {
    hide Word, Zeroes, BlockOk;
    var u := Resize(fs, i, n);
    forall j | j in u.recs ensures FileOk(u, j) {
      FileSame(fs, u, j);
    }
    OwnersSame(fs, u);
  }

  lemma ResizeByte(fs: Fs, i: nat, n: nat, j: nat, o: nat)
    requires Inv(fs) && i in fs.recs && n <= fs.nb[i] * BSIZE && j in fs.recs && o < fs.nb[j] * BSIZE
    ensures Inv(Resize(fs, i, n)) && ByteAt(Resize(fs, i, n), j, o) == ByteAt(fs, j, o)
  {
    hide Word, Zeroes, BlockOk, Files, Owners, Blank;
    ResizeInv(fs, i, n);
    SizeMapped(fs, j);
    FileSame(fs, Resize(fs, i, n), j);
  }

  /** A step that keeps what is mapped keeps every file. */
  lemma ExtendsContent(a: Fs, b: Fs, j: nat)
    requires Extends(a, b) && j in a.recs && b.recs[j].size == a.recs[j].size
    ensures Content(b, j) == Content(a, j)
  {
    hide Word, Zeroes, BlockOk, Files, Owners, Blank;
    forall o | 0 <= o < a.recs[j].size ensures Content(b, j)[o] == Content(a, j)[o] {
      SizeMapped(a, j);
      assert SameBlock(a, b, j, o / BSIZE);
    }
  }

  lemma SizeMapped(fs: Fs, j: nat)
    requires Inv(fs) && j in fs.recs
    ensures fs.recs[j].size <= fs.nb[j] * BSIZE && FileOk(fs, j)
  {
  }

  /** The file with `chunk` put after its last byte, within the block it falls in. */
  function Appended(fs: Fs, i: nat, chunk: seq<bv8>): Fs
    requires Sectors(fs.disk) && i in fs.recs && i in fs.nb && FileOk(fs, i)
    requires fs.recs[i].size / BSIZE < fs.nb[i] && fs.recs[i].size % BSIZE + |chunk| <= BSIZE
    requires Addr(fs, i, fs.recs[i].size / BSIZE) < FSSIZE
  {
    var off := fs.recs[i].size;
    var x := Addr(fs, i, off / BSIZE);
    Resize(WriteBlock(fs, i, off / BSIZE, Splice(fs.disk[x], off % BSIZE, chunk)), i, off + |chunk|)
  }

  lemma AppendedByte(fs: Fs, i: nat, chunk: seq<bv8>, j: nat, o: nat)
    requires Inv(fs) && i in fs.recs && FileOk(fs, i) && j in fs.recs
    requires fs.recs[i].size / BSIZE < fs.nb[i] && fs.recs[i].size % BSIZE + |chunk| <= BSIZE
    requires Addr(fs, i, fs.recs[i].size / BSIZE) < FSSIZE && Inv(Appended(fs, i, chunk)) && o < fs.nb[j] * BSIZE
    ensures var off := fs.recs[i].size;
            ByteAt(Appended(fs, i, chunk), j, o)
            == if j == i && off <= o < off + |chunk| then chunk[o - off] else ByteAt(fs, j, o)
  {
    hide Word, Zeroes, BlockOk, Files, Owners, Blank, ByteAt;
    var off := fs.recs[i].size;
    var k := off / BSIZE;
    var s := Splice(fs.disk[Addr(fs, i, k)], off % BSIZE, chunk);
    WriteInv(fs, i, k, s);
    SizeMapped(WriteBlock(fs, i, k, s), i);
    ResizeByte(WriteBlock(fs, i, k, s), i, off + |chunk|, j, o);
    WriteByte(fs, i, k, s, j, o);
    if j == i && o / BSIZE == k {
      ByteIs(fs, i, o);
    }
  }

  lemma ByteIs(fs: Fs, i: nat, o: nat)
    requires Inv(fs) && i in fs.recs && FileOk(fs, i) && o < fs.nb[i] * BSIZE && Addr(fs, i, o / BSIZE) < FSSIZE
    ensures ByteAt(fs, i, o) == fs.disk[Addr(fs, i, o / BSIZE)][o % BSIZE]
  {
  }

  lemma AppendedInv(fs: Fs, i: nat, chunk: seq<bv8>)
    requires Inv(fs) && i in fs.recs && FileOk(fs, i)
    requires fs.recs[i].size / BSIZE < fs.nb[i] && fs.recs[i].size % BSIZE + |chunk| <= BSIZE
    requires Addr(fs, i, fs.recs[i].size / BSIZE) < FSSIZE
    ensures Inv(Appended(fs, i, chunk)) && Content(Appended(fs, i, chunk), i) == Content(fs, i) + chunk
    ensures forall j :: j in fs.recs && j != i ==> Content(Appended(fs, i, chunk), j) == Content(fs, j)
  {
    hide Word, Zeroes, BlockOk, Files, Owners, Blank, ByteAt, Content;
    var off := fs.recs[i].size;
    var s := Splice(fs.disk[Addr(fs, i, off / BSIZE)], off % BSIZE, chunk);
    WriteInv(fs, i, off / BSIZE, s);
    ResizeInv(WriteBlock(fs, i, off / BSIZE, s), i, off + |chunk|);
    var u := Appended(fs, i, chunk);
    forall j | j in fs.recs ensures Content(u, j) == if j == i then Content(fs, i) + chunk else Content(fs, j) {
      AppendedContent(fs, i, chunk, j);
    }
  }

  lemma AppendedContent(fs: Fs, i: nat, chunk: seq<bv8>, j: nat)
    requires Inv(fs) && i in fs.recs && FileOk(fs, i) && j in fs.recs
    requires fs.recs[i].size / BSIZE < fs.nb[i] && fs.recs[i].size % BSIZE + |chunk| <= BSIZE
    requires Addr(fs, i, fs.recs[i].size / BSIZE) < FSSIZE && Inv(Appended(fs, i, chunk))
    ensures Content(Appended(fs, i, chunk), j) == if j == i then Content(fs, i) + chunk else Content(fs, j)
  {
    hide Word, Zeroes, BlockOk, Files, Owners, Blank, ByteAt, FileOk, Splice;
    var u := Appended(fs, i, chunk);
    SizeMapped(fs, j);
    forall o | 0 <= o < u.recs[j].size
      ensures Content(u, j)[o] == (if j == i then Content(fs, i) + chunk else Content(fs, j))[o]
    {
      AppendedByte(fs, i, chunk, j, o);
    }
  }

  /** A new inode, of size zero. */
  function NewFile(fs: Fs, i: nat, d: Dinode): Fs {
    fs.(recs := fs.recs[i := d], nb := fs.nb[i := 0])
  }

  predicate Fresh(d: Dinode) {
    |d.addrs| == NDIRECT + 1 && d.size == 0 && forall k :: 0 <= k <= NDIRECT ==> d.addrs[k] == 0
  }

  lemma NewFileInv(fs: Fs, i: nat, d: Dinode)
    requires Inv(fs) && i !in fs.recs && Fresh(d)
    ensures Inv(NewFile(fs, i, d)) && Content(NewFile(fs, i, d), i) == []
  {
    hide Word, Zeroes, BlockOk, Fresh, OwnerOk, FileOk, Owners, Blank;
    var u := NewFile(fs, i, d);
    FreshFile(u, i);
    forall j | j in u.recs ensures FileOk(u, j) {
      if j != i {
        SizeMapped(fs, j);
        FileSame(fs, u, j);
      }
    }
    forall j | j in fs.recs ensures u.recs[j].size <= u.nb[j] * BSIZE {
      SizeMapped(fs, j);
    }
    OwnersSame(fs, u);
    BlankSame(fs, u);
  }

  lemma BlankSame(a: Fs, b: Fs)
    requires Inv(a) && Sectors(b.disk) && SameData(a.disk, b.disk) && b.free == a.free
    ensures Blank(b)
  {
    hide Zeroes;
  }

  lemma FreshFile(fs: Fs, i: nat)
    requires Sectors(fs.disk) && i in fs.recs && i in fs.nb && fs.nb[i] == 0 && Fresh(fs.recs[i])
    ensures FileOk(fs, i) && fs.recs[i].size == 0
  {
  }

  lemma NewFileContent(fs: Fs, i: nat, d: Dinode, j: nat)
    requires Inv(fs) && i !in fs.recs && Fresh(d) && j in fs.recs && Inv(NewFile(fs, i, d))
    ensures Content(NewFile(fs, i, d), j) == Content(fs, j)
  {
    hide Word, Zeroes, BlockOk, Files, Owners, Blank;
    SizeMapped(fs, j);
    FileSame(fs, NewFile(fs, i, d), j);
  }

  /** Writing metadata changes no file. */
  lemma MetaInv(fs: Fs, disk: map<nat, Sector>)
    requires Inv(fs) && Sectors(disk) && SameData(fs.disk, disk)
    ensures Inv(fs.(disk := disk))
  {
    hide Word, Zeroes, BlockOk;
    var u := fs.(disk := disk);
    forall j | j in u.recs ensures FileOk(u, j) {
      FileSame(fs, u, j);
    }
    OwnersSame(fs, u);
  }

  lemma MetaContent(fs: Fs, disk: map<nat, Sector>, j: nat)
    requires Inv(fs) && Sectors(disk) && SameData(fs.disk, disk) && j in fs.recs && Inv(fs.(disk := disk))
    ensures Content(fs.(disk := disk), j) == Content(fs, j)
  {
    hide Word, Zeroes, BlockOk, Files, Owners, Blank;
    SizeMapped(fs, j);
    FileSame(fs, fs.(disk := disk), j);
    forall o | 0 <= o < fs.recs[j].size ensures Content(fs.(disk := disk), j)[o] == Content(fs, j)[o] {
      BlockOwned(fs, j, o / BSIZE);
    }
  }
}
