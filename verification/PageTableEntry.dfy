/**
 Page-table entries: the 64-bit words the kernel manipulates, and the fields the rest
 of the model works with.  Every bit operation of the source is shown to be the field
 update it is used as.
 */
module PageTableEntry {

  /** The permission bits an entry carries besides V. */
  datatype Perm = Perm(r: bool, w: bool, x: bool, u: bool, g: bool, a: bool, d: bool, cow: bool, rs2: bool)

  /** An entry by fields: V, the other flags, and the physical page number. */
  datatype Pte = Pte(v: bool, perm: Perm, ppn: nat)

  const V: bv64 := 0x001
  const R: bv64 := 0x002
  const W: bv64 := 0x004
  const X: bv64 := 0x008
  const U: bv64 := 0x010
  const G: bv64 := 0x020
  const A: bv64 := 0x040
  const D: bv64 := 0x080
  const RS1: bv64 := 0x100
  const RS2: bv64 := 0x200

  function PermOf(e: bv64): Perm {
    Perm(e & R != 0, e & W != 0, e & X != 0, e & U != 0, e & G != 0, e & A != 0, e & D != 0,
         e & RS1 != 0, e & RS2 != 0)
  }

  /** The fields of an entry word. */
  function Decode(e: bv64): Pte {
    Pte(e & V != 0, PermOf(e), (e >> 10) as nat)
  }

  /** The layout of an Sv39 entry, section 4.4.1 of the RISC-V Privileged Architecture: one bit a flag. */
  lemma Layout(e: bv64)
    ensures Decode(e).v <==> (e >> 0) & 1 == 1
    ensures Decode(e).perm.r <==> (e >> 1) & 1 == 1
    ensures Decode(e).perm.w <==> (e >> 2) & 1 == 1
    ensures Decode(e).perm.x <==> (e >> 3) & 1 == 1
    ensures Decode(e).perm.u <==> (e >> 4) & 1 == 1
    ensures Decode(e).perm.g <==> (e >> 5) & 1 == 1
    ensures Decode(e).perm.a <==> (e >> 6) & 1 == 1
    ensures Decode(e).perm.d <==> (e >> 7) & 1 == 1
    ensures Decode(e).perm.cow <==> (e >> 8) & 1 == 1
    ensures Decode(e).perm.rs2 <==> (e >> 9) & 1 == 1
  {
  }

  // ----- the source's operations on words -----

  function WritePerm(pa: bv64, perm: bv64): bv64 {
    ((pa >> 12) << 10) | (perm | V)
  }

  function AsPagetable(e: bv64): bv64 {
    (e >> 10) << 12
  }

  function AsFlags(e: bv64): bv64 {
    e & 0x3FF
  }

  function ToCowPage(e: bv64): bv64 {
    (e & !W) | RS1
  }

  function AddWriteBit(e: bv64): bv64 {
    e | W
  }

  predicate IsLeaf(e: bv64) {
    e & (R | W | X) != 0
  }

  // ----- what they mean -----

  lemma WritePermPage(pa: bv64, perm: bv64)
    requires perm & !0x3FF == 0
    ensures WritePerm(pa, perm) >> 10 == pa >> 12
  {
  }

  lemma WritePermFlags(pa: bv64, perm: bv64)
    requires perm & !0x3FF == 0
    ensures WritePerm(pa, perm) & V != 0 && PermOf(WritePerm(pa, perm)) == PermOf(perm)
  {
  }

  /** A word written for an address and flags has those fields, and is valid. */
  lemma WritePermFields(pa: bv64, perm: bv64)
    requires perm & !0x3FF == 0
    ensures Decode(WritePerm(pa, perm)) == Pte(true, PermOf(perm), (pa >> 12) as nat)
  {
    hide WritePerm, PermOf;
    WritePermFlags(pa, perm);
    WritePermPage(pa, perm);
  }

  /** A page-aligned address written into an entry is read back from it. */
  lemma WritePermAddress(pa: bv64, perm: bv64)
    requires perm & !0x3FF == 0 && pa & 0xFFF == 0
    ensures AsPagetable(WritePerm(pa, perm)) == pa
  {
    hide WritePerm;
    WritePermPage(pa, perm);
    PageAddress(pa);
  }

  lemma PageAddress(pa: bv64)
    ensures pa & 0xFFF == 0 ==> (pa >> 12) << 12 == pa
  {
  }

  /** The entry `now` is `was` made copy-on-write: every field. */
  predicate CowOf(was: Pte, now: Pte) {
    && now.v == was.v && now.ppn == was.ppn && !now.perm.w && now.perm.cow
    && now.perm.r == was.perm.r && now.perm.x == was.perm.x && now.perm.u == was.perm.u && now.perm.g == was.perm.g
    && now.perm.a == was.perm.a && now.perm.d == was.perm.d && now.perm.rs2 == was.perm.rs2
  }

  /** The entry `now` is `was` made writable, in frame `f`: every field. */
  predicate WritableOf(was: Pte, now: Pte, f: nat) {
    && now.v == was.v && now.ppn == f && now.perm.w && now.perm.cow == was.perm.cow
    && now.perm.r == was.perm.r && now.perm.x == was.perm.x && now.perm.u == was.perm.u && now.perm.g == was.perm.g
    && now.perm.a == was.perm.a && now.perm.d == was.perm.d && now.perm.rs2 == was.perm.rs2
  }

  lemma ToCowPageFields(e: bv64)
    ensures Decode(ToCowPage(e)) == Decode(e).(perm := Decode(e).perm.(w := false, cow := true))
    ensures CowOf(Decode(e), Decode(ToCowPage(e)))
  {
  }

  lemma AddWriteBitFields(e: bv64)
    ensures Decode(AddWriteBit(e)) == Decode(e).(perm := Decode(e).perm.(w := true))
    ensures WritableOf(Decode(e), Decode(AddWriteBit(e)), Decode(e).ppn)
  {
  }

  lemma IsLeafFields(e: bv64)
    ensures IsLeaf(e) <==> PermOf(e).r || PermOf(e).w || PermOf(e).x
  {
  }

  /** Flags copied from one entry and written into another keep every permission. */
  lemma CopyFlags(e: bv64, pa: bv64)
    ensures PermOf(WritePerm(pa, AsFlags(e))) == PermOf(e)
  {
  }

  /**
   The test `uunmap` makes for an entry that is no leaf inverts the bits of the flags before it
   compares, so no entry meets it; the one meant, that the flags are V alone, some entry does.
   */
  lemma LeafTestNeverFires(e: bv64)
    ensures !AsFlags(e) != 1
    ensures e == 1 ==> AsFlags(e) == 1 && !IsLeaf(e)
  {
  }
}
