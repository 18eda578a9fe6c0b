/** Byte memory with 32-bit little-endian accesses, and the two-level page tables that live in it. */
module PagingMemory {
  import opened Words
  import opened Wrappers

  type Memory = seq<Byte>

  const PAGE := 0x1000
  const ENTRIES := 0x400
  const PAGE_DIR := 0x2_0000
  const PAGE_TABLE := 0x2_1000
  const TABLES_END := 0x2_2000
  /** Present and writable. */
  const FLAGS := 3

  // Words

  function Combine(b0: Byte, b1: Byte, b2: Byte, b3: Byte): Word
  {
    b0 + 0x100 * b1 + 0x1_0000 * b2 + 0x100_0000 * b3
  }

  /** The addresses of the four bytes of one access, the least significant byte first. */
  datatype Quad = Quad(a0: nat, a1: nat, a2: nat, a3: nat) {
    predicate IsIn(m: Memory) { a0 < |m| && a1 < |m| && a2 < |m| && a3 < |m| }

    predicate Has(a: nat) { a == a0 || a == a1 || a == a2 || a == a3 }
  }

  function Straight(a: nat): Quad { Quad(a, a + 1, a + 2, a + 3) }

  function Scatter(m: Memory, t: Quad, w: Word): (r: Memory)
    requires t.IsIn(m)
    ensures |r| == |m| && forall a :: 0 <= a < |m| && !t.Has(a) ==> r[a] == m[a]
  {
    m[t.a0 := w % 0x100][t.a1 := w / 0x100 % 0x100][t.a2 := w / 0x1_0000 % 0x100][t.a3 := w / 0x100_0000]
  }

  function Gather(m: Memory, t: Quad): Word
    requires t.IsIn(m)
  {
    Combine(m[t.a0], m[t.a1], m[t.a2], m[t.a3])
  }

  lemma CombineOfBytes(w: Word)
    ensures Combine(w % 0x100, w / 0x100 % 0x100, w / 0x1_0000 % 0x100, w / 0x100_0000) == w
  {
    assert w / 0x1_0000 == w / 0x100 / 0x100 && w / 0x100_0000 == w / 0x1_0000 / 0x100;
  }

  lemma GatherOfScatter(m: Memory, a: nat, w: Word)
    requires a + 4 <= |m|
    ensures Gather(Scatter(m, Straight(a), w), Straight(a)) == w
  {
    CombineOfBytes(w);
  }

  // Page tables

  function Pde(m: Memory, i: nat): Word
    requires i < ENTRIES && TABLES_END <= |m|
  {
    Gather(m, Straight(PAGE_DIR + 4 * i))
  }

  function Pte(m: Memory, p: nat): Word
    requires p < ENTRIES && TABLES_END <= |m|
  {
    Gather(m, Straight(PAGE_TABLE + 4 * p))
  }

  function DirIndex(a: Word): (i: nat)
    ensures i < ENTRIES && (i == 0 <==> a < 0x40_0000)
  {
    a / 0x40_0000
  }

  function TableIndex(a: Word): (i: nat)
    ensures i < ENTRIES && (a < 0x40_0000 ==> i == a / PAGE)
  {
    a / PAGE % ENTRIES
  }

  function Base(entry: Word): nat { entry / PAGE * PAGE }

  /** The walk the processor makes; nothing when an entry on the way is not present. */
  function Translate(m: Memory, a: Word): Option<nat>
    requires TABLES_END <= |m|
  {
    var pde := Pde(m, DirIndex(a));
    if pde % 2 == 0 || Base(pde) + PAGE > |m| then None else
    var pte := Gather(m, Straight(Base(pde) + 4 * TableIndex(a)));
    if pte % 2 == 0 then None else Some(Base(pte) + a % PAGE)
  }

  type Frame = f: nat | f < 0x10_0000

  /** One table maps the first 4 MB to the given frames, and nothing else is mapped. */
  ghost predicate HasTable(m: Memory, frames: seq<Frame>)
  {
    && TABLES_END <= |m| && |frames| == ENTRIES
    && Pde(m, 0) == PAGE_TABLE + FLAGS
    && (forall i :: 1 <= i < ENTRIES ==> Pde(m, i) == 0)
    && (forall p :: 0 <= p < ENTRIES ==> Pte(m, p) == frames[p] * PAGE + FLAGS)
  }

  function Phys(frames: seq<Frame>, a: nat): nat
    requires |frames| == ENTRIES && a < 0x40_0000
  {
    frames[a / PAGE] * PAGE + a % PAGE
  }

  function PhysQuad(frames: seq<Frame>, a: nat): Quad
    requires |frames| == ENTRIES && a + 4 <= 0x40_0000
  {
    Quad(Phys(frames, a), Phys(frames, a + 1), Phys(frames, a + 2), Phys(frames, a + 3))
  }

  lemma PresentEntry(frame: Frame)
    ensures (frame * PAGE + FLAGS) % 2 == 1 && Base(frame * PAGE + FLAGS) == frame * PAGE
  {
    assert frame * PAGE + FLAGS == 2 * (frame * (PAGE / 2) + 1) + 1;
  }

  lemma DirectoryPointsToTable(m: Memory, frames: seq<Frame>, a: Word)
    requires HasTable(m, frames) && a < 0x40_0000
    ensures var pte := Pte(m, TableIndex(a));
      Translate(m, a) == if pte % 2 == 0 then None else Some(Base(pte) + a % PAGE)
  {
    assert Base(PAGE_TABLE + FLAGS) == PAGE_TABLE;
  }

  /** With the tables in place, exactly the first 4 MB are mapped, each page to its frame. */
  lemma TranslateIs(m: Memory, frames: seq<Frame>, a: Word)
    requires HasTable(m, frames)
    ensures Translate(m, a) == if a < 0x40_0000 then Some(Phys(frames, a)) else None
  {
    if a < 0x40_0000 {
      DirectoryPointsToTable(m, frames, a);
      PresentEntry(frames[TableIndex(a)]);
    } else {
      assert Pde(m, DirIndex(a)) == 0;
    }
  }

  predicate InTables(a: nat) { PAGE_DIR <= a < TABLES_END }

  ghost predicate SameTables(m: Memory, n: Memory)
  {
    |m| == |n| && TABLES_END <= |m| && forall a {:trigger n[a]} :: PAGE_DIR <= a < TABLES_END ==> n[a] == m[a]
  }

  lemma TablesStay(m: Memory, n: Memory, frames: seq<Frame>)
    requires HasTable(m, frames) && SameTables(m, n)
    ensures HasTable(n, frames)
  {
    forall i | 0 <= i < ENTRIES ensures Pde(n, i) == Pde(m, i) && Pte(n, i) == Pte(m, i) {
      SameEntries(m, n, i);
    }
  }

  lemma SameEntries(m: Memory, n: Memory, i: nat)
    requires SameTables(m, n) && i < ENTRIES
    ensures Pde(n, i) == Pde(m, i) && Pte(n, i) == Pte(m, i)
  {
  }

  /** Rewriting one entry of the table changes one frame. */
  lemma EntryChanges(m: Memory, frames: seq<Frame>, page: nat, frame: Frame)
    requires HasTable(m, frames) && page < ENTRIES
    ensures HasTable(Scatter(m, Straight(PAGE_TABLE + 4 * page), frame * PAGE + FLAGS), frames[page := frame])
  {
    var entry: Word := frame * PAGE + FLAGS;
    GatherOfScatter(m, PAGE_TABLE + 4 * page, entry);
    var n := Scatter(m, Straight(PAGE_TABLE + 4 * page), entry);
    assert Pte(n, page) == entry;
    OneEntryChanges(m, n, frames, page, frame);
  }

  lemma OneEntryChanges(m: Memory, n: Memory, frames: seq<Frame>, page: nat, frame: Frame)
    requires HasTable(m, frames) && page < ENTRIES
    requires n == Scatter(m, Straight(PAGE_TABLE + 4 * page), frame * PAGE + FLAGS)
    requires Pte(n, page) == frame * PAGE + FLAGS
    ensures HasTable(n, frames[page := frame])
  {
    forall i | 0 <= i < ENTRIES ensures Pde(n, i) == Pde(m, i) && (i != page ==> Pte(n, i) == Pte(m, i)) {
      OtherEntriesStay(m, page, frame * PAGE + FLAGS, i);
    }
  }

  lemma OtherEntriesStay(m: Memory, page: nat, w: Word, i: nat)
    requires page < ENTRIES && i < ENTRIES && TABLES_END <= |m|
    ensures var n := Scatter(m, Straight(PAGE_TABLE + 4 * page), w);
      Pde(n, i) == Pde(m, i) && (i != page ==> Pte(n, i) == Pte(m, i))
  {
  }

  lemma OtherDirEntriesStay(m: Memory, dir: nat, w: Word, i: nat)
    requires dir < ENTRIES && i < ENTRIES && TABLES_END <= |m|
    ensures var n := Scatter(m, Straight(PAGE_DIR + 4 * dir), w);
      (i != dir ==> Pde(n, i) == Pde(m, i)) && Pte(n, i) == Pte(m, i)
  {
  }

  /** One more directory entry is cleared. */
  lemma EntryCleared(m: Memory, n: Memory, dir: nat)
    requires dir < ENTRIES && TABLES_END <= |m| && n == Scatter(m, Straight(PAGE_DIR + 4 * dir), 0)
    requires forall i :: 0 <= i < dir ==> Pde(m, i) == 0
    ensures forall i :: 0 <= i <= dir ==> Pde(n, i) == 0
  {
    GatherOfScatter(m, PAGE_DIR + 4 * dir, 0);
    forall i | 0 <= i < dir ensures Pde(n, i) == 0 {
      OtherDirEntriesStay(m, dir, 0, i);
    }
  }
}
