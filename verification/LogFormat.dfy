/**
 The on-disk format of the write-ahead log and the block writes that a commit
 and a recovery issue, as values.

 A disk is a finite map from block numbers to blocks; a block never written reads
 as zeroes, as the image builder leaves it.  Every entry of a `seq<Write>` is one
 atomic block write, so the disk after a crash is the disk after some prefix.
 */
module LogFormat {

  const MAXOPBLOCKS: nat := 10
  const LOGSIZE: nat := MAXOPBLOCKS * 3
  /** Words (u32) per block. */
  const BWORDS: nat := 256

  function Zeroes(n: nat): (z: seq<nat>)
    ensures |z| == n && forall i :: 0 <= i < n ==> z[i] == 0
  {
    if n == 0 then [] else [0] + Zeroes(n - 1)
  }

  type Block = b: seq<nat> | |b| == BWORDS witness Zeroes(BWORDS)

  type Disk = map<nat, Block>

  datatype Write = Write(bno: nat, data: Block)

  /** The in-memory image of the log header; `blocknos` has LOGSIZE-1 entries. */
  datatype LogHeader = LogHeader(len: nat, blocknos: seq<nat>)

  function At(d: Disk, n: nat): Block {
    if n in d then d[n] else Zeroes(BWORDS)
  }

  function Apply(d: Disk, ws: seq<Write>): Disk
    decreases |ws|
  {
    if ws == [] then d else Apply(d[ws[0].bno := ws[0].data], ws[1..])
  }

  lemma {:induction false} ApplyConcat(d: Disk, a: seq<Write>, b: seq<Write>)
    ensures Apply(d, a + b) == Apply(Apply(d, a), b)
    decreases |a|
  {
    if a == [] {
      assert a + b == b;
    } else {
      assert (a + b)[1..] == a[1..] + b;
      ApplyConcat(d[a[0].bno := a[0].data], a[1..], b);
    }
  }

  lemma ApplySnoc(d: Disk, a: seq<Write>, w: Write)
    ensures Apply(d, a + [w]) == Apply(d, a)[w.bno := w.data]
  {
    ApplyConcat(d, a, [w]);
    assert [w][1..] == [];
  }

  /** A block no write touches keeps its contents. */
  lemma {:induction false} ApplyUntouched(d: Disk, ws: seq<Write>, n: nat)
    requires forall i :: 0 <= i < |ws| ==> ws[i].bno != n
    ensures At(Apply(d, ws), n) == At(d, n)
    decreases |ws|
  {
    if ws != [] {
      ApplyUntouched(d[ws[0].bno := ws[0].data], ws[1..], n);
    }
  }

  /** The last write to a block decides its contents. */
  lemma {:induction false} ApplyLast(d: Disk, ws: seq<Write>, k: nat)
    requires k < |ws|
    requires forall i :: k < i < |ws| ==> ws[i].bno != ws[k].bno
    ensures At(Apply(d, ws), ws[k].bno) == ws[k].data
    decreases |ws|
  {
    if k == 0 {
      ApplyUntouched(d[ws[0].bno := ws[0].data], ws[1..], ws[0].bno);
    } else {
      ApplyLast(d[ws[0].bno := ws[0].data], ws[1..], k - 1);
    }
  }

  // ----- header codec: the header overlays the first LOGSIZE words of its block -----

  predicate HeaderOk(h: LogHeader) {
    |h.blocknos| == LOGSIZE - 1 && h.len <= LOGSIZE - 1
  }

  function GetHeader(b: Block): (h: LogHeader)
    ensures |h.blocknos| == LOGSIZE - 1
  {
    LogHeader(b[0], b[1..LOGSIZE])
  }

  function PutHeader(b: Block, h: LogHeader): (r: Block)
    requires |h.blocknos| == LOGSIZE - 1
    ensures GetHeader(r) == h
    ensures r[LOGSIZE..] == b[LOGSIZE..]
  {
    var r := [h.len] + h.blocknos + b[LOGSIZE..];
    assert r[1..LOGSIZE] == h.blocknos;
    assert r[LOGSIZE..] == b[LOGSIZE..];
    r
  }

  // ----- the writes of a commit and of a recovery -----

  function Bnos(g: seq<Write>): (ns: seq<nat>)
    ensures |ns| == |g| && forall i :: 0 <= i < |g| ==> ns[i] == g[i].bno
  {
    seq(|g|, i requires 0 <= i < |g| => g[i].bno)
  }

  /** The copies of a group in the log blocks behind the header. */
  function LogWrites(start: nat, g: seq<Write>): (ws: seq<Write>)
    ensures |ws| == |g|
    ensures forall i :: 0 <= i < |g| ==> ws[i] == Write(start + 1 + i, g[i].data)
  {
    seq(|g|, i requires 0 <= i < |g| => Write(start + 1 + i, g[i].data))
  }

  function HeadWrite(start: nat, d: Disk, h: LogHeader): Write
    requires HeaderOk(h)
  {
    Write(start, PutHeader(At(d, start), h))
  }

  /** `empty_head` clears the length word only. */
  function Emptied(b: Block): (r: Block)
    ensures GetHeader(r) == GetHeader(b).(len := 0)
  {
    var r: Block := b[0 := 0];
    assert r[1..LOGSIZE] == b[1..LOGSIZE];
    r
  }

  /** All block writes of one group commit, in order. */
  function CommitWrites(start: nat, d: Disk, h: LogHeader, g: seq<Write>): (ws: seq<Write>)
    requires HeaderOk(h) && h.blocknos[..h.len] == Bnos(g)
    ensures h.len == 0 ==> ws == []
    ensures h.len > 0 ==> |ws| == 2 * h.len + 2
  {
    if h.len == 0 then []
    else LogWrites(start, g) + [HeadWrite(start, d, h)] + g
         + [Write(start, Emptied(HeadWrite(start, d, h).data))]
  }

  /** The group that header `h` says is in the log. */
  function Logged(start: nat, d: Disk, h: LogHeader): (g: seq<Write>)
    requires HeaderOk(h)
    ensures |g| == h.len
    ensures forall i :: 0 <= i < |g| ==> g[i] == Write(h.blocknos[i], At(d, start + 1 + i))
  {
    seq(h.len, i requires 0 <= i < h.len => Write(h.blocknos[i], At(d, start + 1 + i)))
  }

  /** All block writes of one complete recovery, in order. */
  function RecoverWrites(start: nat, d: Disk): (ws: seq<Write>)
    requires HeaderOk(GetHeader(At(d, start)))
  {
    var h := GetHeader(At(d, start));
    if h.len == 0 then []
    else Logged(start, d, h) + [Write(start, Emptied(At(d, start)))]
  }
}
