/**
 * The bare-metal payload for page-crossing string I/O: it builds page tables, remaps two pages, moves one word each way
 * across a page boundary through the emulator, and prints what it finds.
 */
module PagingPayload {
  import opened Words
  import opened Wrappers
  import opened PagingMemory

  const BUFFER := 0x1_0000
  const BUFFER_SIZE := 0x3000
  const INSD_TARGET := 0x1_0FFD
  const OUTSD_SRC := 0x1_1FFE
  const READBACK := 0x1_1011
  const OUTPUT_START := 0x1_0FF0
  const OUTPUT_END := 0x1_1015
  const PCI_VALUE: Word := 0x4343_4444
  const OUTSD_VALUE: Word := 0x5959_5858
  const CODE := 0x7C00
  const CODE_END := 0x7E00
  const MARKER: seq<Byte> :=
    [0x48, 0x45, 0x4C, 0x4C, 0x4F, 0x20, 0x56, 0x49, 0x41, 0x20, 0x4F, 0x55, 0x54, 0x53, 0x42, 13, 10]
  const MARKER_SIZE := 17
  const LINE_SIZE := OUTPUT_END - OUTPUT_START + MARKER_SIZE
  const RAM_NEEDED := 0x3_2000

  // Frames

  function Identity(): (frames: seq<Frame>)
    ensures |frames| == ENTRIES && forall p :: 0 <= p < ENTRIES ==> frames[p] == p
  {
    seq(ENTRIES, p requires 0 <= p < ENTRIES => p)
  }

  function Final(): (frames: seq<Frame>)
    ensures |frames| == ENTRIES
  {
    Identity()[0x11 := 0x31][0x12 := 0x30]
  }

  /** Where byte `k` of the buffer lives. */
  function BufferPhys(k: nat): nat
  {
    if k < 0x1000 then 0x1_0000 + k else if k < 0x2000 then 0x3_0000 + k else 0x2_E000 + k
  }

  lemma BufferMaps(k: nat)
    requires k < BUFFER_SIZE
    ensures Phys(Final(), BUFFER + k) == BufferPhys(k)
  {
    var page := (BUFFER + k) / PAGE;
    assert page == 0x10 + k / PAGE;
  }

  predicate InBuffer(a: nat) { 0x1_0000 <= a < 0x1_1000 || 0x3_0000 <= a < 0x3_2000 }

  /** The buffer is mapped injectively to memory that is neither tables, nor code, nor the stack below it. */
  lemma BufferIsSafe(j: nat, k: nat)
    requires j < BUFFER_SIZE && k < BUFFER_SIZE
    ensures Phys(Final(), BUFFER + j) == Phys(Final(), BUFFER + k) ==> j == k
    ensures var a := Phys(Final(), BUFFER + j); InBuffer(a) && !InTables(a) && CODE_END <= a < RAM_NEEDED
  {
    BufferMaps(j);
    BufferMaps(k);
  }

  // The expected line

  function Repeat(b: Byte, n: nat): (r: seq<Byte>)
    ensures |r| == n && forall k :: 0 <= k < n ==> r[k] == b
  {
    seq(n, k => b)
  }

  /** The pattern the test matches: `A{13}D{2}C{2}A{16}X{2}Y{2}`, then the marker's text. */
  function Expected(): seq<Byte>
  {
    Repeat(0x41, 13) + Repeat(0x44, 2) + Repeat(0x43, 2) + Repeat(0x41, 16) + Repeat(0x58, 2) + Repeat(0x59, 2)
    + MARKER[..15]
  }

  lemma MarkerSpells()
    ensures |MARKER| == MARKER_SIZE && MARKER[15] == 13 && MARKER[16] == 10
    ensures forall k :: 0 <= k < 15 ==> MARKER[k] == "HELLO VIA OUTSB"[k] as int
  {
  }

  predicate Matches(line: seq<Byte>) { Expected() <= line }

  function ExpectedAt(k: nat): Byte
    requires k < 37
  {
    if k < 13 then 0x41 else if k < 15 then 0x44 else if k < 17 then 0x43
    else if k < 33 then 0x41 else if k < 35 then 0x58 else 0x59
  }

  lemma ExpectedIs()
    ensures |Expected()| == 52
    ensures forall k :: 0 <= k < 37 ==> Expected()[k] == ExpectedAt(k)
    ensures forall k :: 37 <= k < 52 ==> Expected()[k] == MARKER[k - 37]
  {
  }

  function LinePhys(k: nat): nat { BufferPhys(OUTPUT_START - BUFFER + k) }

  /** What one pass of the output loop sends. */
  function Line(m: Memory): (line: seq<Byte>)
    requires RAM_NEEDED <= |m|
    ensures |line| == LINE_SIZE && forall k :: 0 <= k < LINE_SIZE ==> line[k] == m[LinePhys(k)]
  {
    seq(LINE_SIZE, k requires 0 <= k < LINE_SIZE => m[LinePhys(k)])
  }

  // Phases

  const OUTSD_QUAD := Quad(0x3_1FFE, 0x3_1FFF, 0x3_0000, 0x3_0001)
  const INSD_QUAD := Quad(0x1_0FFD, 0x1_0FFE, 0x1_0FFF, 0x3_1000)
  const READBACK_PHYS := 0x3_1011
  const MARKER_PHYS := 0x3_1015

  ghost predicate IsFilled(m: Memory)
  {
    RAM_NEEDED <= |m| && forall a: nat :: InBuffer(a) ==> m[a] == 0x41
  }

  /** Memory when the word is on its way out: the first word has come in at `d`, the second lies across the boundary. */
  function AtOutput(filled: Memory, d: Quad): (m: Memory)
    requires RAM_NEEDED <= |filled| && d.IsIn(filled)
    ensures |m| == |filled|
  {
    Scatter(Scatter(filled, d, PCI_VALUE), OUTSD_QUAD, OUTSD_VALUE)
  }

  /** The port clears the two low bits. */
  function Latched(w: Word): Word { w - w % 4 }

  /** The first `n` bytes of the marker follow the output region. */
  ghost predicate HasCopied(m: Memory, r: Memory, n: nat)
  {
    && RAM_NEEDED <= |m| == |r| && n <= MARKER_SIZE
    && forall a {:trigger r[a]} :: 0 <= a < |m| ==>
         r[a] == if MARKER_PHYS <= a < MARKER_PHYS + n then MARKER[a - MARKER_PHYS] else m[a]
  }

  ghost predicate IsFinished(m: Memory, w: Word, n: Memory)
  {
    RAM_NEEDED <= |m| && HasCopied(Scatter(m, Straight(READBACK_PHYS), w), n, MARKER_SIZE)
  }

  // What the line reveals

  /** The four bytes arrive, up to an exchange of equal ones. */
  predicate Delivers(d: Quad)
  {
    {d.a0, d.a1} == {0x1_0FFD, 0x1_0FFE} && {d.a2, d.a3} == {0x1_0FFF, 0x3_1000}
  }

  lemma DeliversIs(d: Quad)
    ensures Delivers(d)
       <==> ((d.a0 == 0x1_0FFD && d.a1 == 0x1_0FFE) || (d.a0 == 0x1_0FFE && d.a1 == 0x1_0FFD))
            && ((d.a2 == 0x1_0FFF && d.a3 == 0x3_1000) || (d.a2 == 0x3_1000 && d.a3 == 0x1_0FFF))
  {
    if Delivers(d) {
      assert d.a0 in {d.a0, d.a1} && d.a1 in {d.a0, d.a1} && d.a2 in {d.a2, d.a3} && d.a3 in {d.a2, d.a3};
      assert 0x1_0FFD in {d.a0, d.a1} && 0x1_0FFE in {d.a0, d.a1};
      assert 0x1_0FFF in {d.a2, d.a3} && 0x3_1000 in {d.a2, d.a3};
    }
  }

  lemma InsdDetects(filled: Memory, d: Quad)
    requires IsFilled(filled) && d.IsIn(filled)
    ensures (forall k :: 0 <= k < 33 ==> Scatter(filled, d, PCI_VALUE)[LinePhys(k)] == ExpectedAt(k)) <==> Delivers(d)
  {
    var m := Scatter(filled, d, PCI_VALUE);
    DeliversIs(d);
    if Delivers(d) {
      forall k | 0 <= k < 33 ensures m[LinePhys(k)] == ExpectedAt(k) {
        DeliveredByte(filled, d, k);
      }
    }
    if forall k :: 0 <= k < 33 ==> m[LinePhys(k)] == ExpectedAt(k) {
      assert m[LinePhys(13)] == 0x44 && m[LinePhys(14)] == 0x44 && m[LinePhys(15)] == 0x43 && m[LinePhys(16)] == 0x43;
      FourBytesDeliver(filled, d);
    }
  }

  /** The bytes of the first word, stored one after the other. */
  lemma ScatteredByte(filled: Memory, d: Quad, a: nat)
    requires d.IsIn(filled) && a < |filled|
    ensures Scatter(filled, d, PCI_VALUE)[a]
         == if a == d.a3 || a == d.a2 then 0x43 else if a == d.a1 || a == d.a0 then 0x44 else filled[a]
  {
  }

  lemma DeliveredByte(filled: Memory, d: Quad, k: nat)
    requires IsFilled(filled) && d.IsIn(filled) && Delivers(d) && k < 33
    ensures Scatter(filled, d, PCI_VALUE)[LinePhys(k)] == ExpectedAt(k)
  {
    DeliversIs(d);
    ScatteredByte(filled, d, LinePhys(k));
  }

  lemma FourBytesDeliver(filled: Memory, d: Quad)
    requires IsFilled(filled) && d.IsIn(filled)
    requires var m := Scatter(filled, d, PCI_VALUE);
      m[0x1_0FFD] == 0x44 && m[0x1_0FFE] == 0x44 && m[0x1_0FFF] == 0x43 && m[0x3_1000] == 0x43
    ensures Delivers(d)
  {
    DeliversIs(d);
    ScatteredByte(filled, d, 0x1_0FFD);
    ScatteredByte(filled, d, 0x1_0FFE);
    ScatteredByte(filled, d, 0x1_0FFF);
    ScatteredByte(filled, d, 0x3_1000);
  }

  lemma ReadbackDetects(m: Memory, w: Word)
    requires RAM_NEEDED <= |m|
    ensures var n := Scatter(m, Straight(READBACK_PHYS), w);
      (forall k :: 33 <= k < 37 ==> n[LinePhys(k)] == ExpectedAt(k)) <==> w == OUTSD_VALUE
  {
    var n := Scatter(m, Straight(READBACK_PHYS), w);
    if forall k :: 33 <= k < 37 ==> n[LinePhys(k)] == ExpectedAt(k) {
      assert n[LinePhys(33)] == 0x58 && n[LinePhys(34)] == 0x58 && n[LinePhys(35)] == 0x59 && n[LinePhys(36)] == 0x59;
      CombineOfBytes(w);
    }
    if w == OUTSD_VALUE {
      BytesOfOutsdValue();
    }
  }

  lemma BytesOfOutsdValue()
    ensures OUTSD_VALUE % 0x100 == 0x58 && OUTSD_VALUE / 0x100 % 0x100 == 0x58
    ensures OUTSD_VALUE / 0x1_0000 % 0x100 == 0x59 && OUTSD_VALUE / 0x100_0000 == 0x59
  {
  }

  /** The line matches exactly when the first word arrives and the second is read, whatever the emulator touches. */
  lemma LineDetects(filled: Memory, d: Quad, w: Word, n: Memory)
    requires IsFilled(filled) && d.IsIn(filled) && IsFinished(AtOutput(filled, d), w, n)
    ensures Matches(Line(n)) <==> Delivers(d) && w == OUTSD_VALUE
  {
    var m := AtOutput(filled, d);
    InsdDetects(filled, d);
    ReadbackDetects(m, w);
    ExpectedIs();
    forall k | 0 <= k < 33 ensures Line(n)[k] == Scatter(filled, d, PCI_VALUE)[LinePhys(k)] {
    }
    forall k | 33 <= k < 37 ensures Line(n)[k] == Scatter(m, Straight(READBACK_PHYS), w)[LinePhys(k)] {
    }
    forall k | 37 <= k < 52 ensures Line(n)[k] == MARKER[k - 37] {
      assert LinePhys(k) == MARKER_PHYS + (k - 37);
    }
    MatchesIs(Line(n));
  }

  lemma MatchesIs(line: seq<Byte>)
    requires |line| == LINE_SIZE && forall k :: 37 <= k < 52 ==> line[k] == MARKER[k - 37]
    ensures Matches(line)
       <==> (forall k :: 0 <= k < 33 ==> line[k] == ExpectedAt(k))
            && forall k :: 33 <= k < 37 ==> line[k] == ExpectedAt(k)
  {
    ExpectedIs();
    if Matches(line) {
      forall k | 0 <= k < 37 ensures line[k] == ExpectedAt(k) {
        assert Expected()[k] == line[k];
      }
    }
  }

  /** The second word is read exactly when the four bytes are "XXYY" up to the bits the port clears in the first. */
  lemma OutsdDetects(m: Memory, q: Quad)
    requires q.IsIn(m)
    ensures Latched(Gather(m, q)) == OUTSD_VALUE
       <==> Sees(m, q)
  {
    GatherLatches(m[q.a0], m[q.a1], m[q.a2], m[q.a3]);
  }

  lemma GatherLatches(b0: Byte, b1: Byte, b2: Byte, b3: Byte)
    ensures Latched(Combine(b0, b1, b2, b3)) == OUTSD_VALUE
       <==> b0 - b0 % 4 == 0x58 && b1 == 0x58 && b2 == 0x59 && b3 == 0x59
  {
    LowBitsCleared(b0, b1, b2, b3);
    BytesDetermineWord(b0 - b0 % 4, b1, b2, b3);
  }

  lemma LowBitsCleared(b0: Byte, b1: Byte, b2: Byte, b3: Byte)
    ensures Latched(Combine(b0, b1, b2, b3)) == Combine(b0 - b0 % 4, b1, b2, b3)
  {
    var rest := 0x40 * b1 + 0x4000 * b2 + 0x40_0000 * b3;
    assert Combine(b0, b1, b2, b3) == b0 + 4 * rest;
    assert (b0 + 4 * rest) % 4 == b0 % 4;
  }

  lemma BytesDetermineWord(b0: Byte, b1: Byte, b2: Byte, b3: Byte)
    ensures Combine(b0, b1, b2, b3) == OUTSD_VALUE <==> b0 == 0x58 && b1 == 0x58 && b2 == 0x59 && b3 == 0x59
  {
  }

  lemma SecondWordLies(filled: Memory, d: Quad)
    requires RAM_NEEDED <= |filled| && d.IsIn(filled)
    ensures var m := AtOutput(filled, d);
      m[0x3_1FFE] == 0x58 && m[0x3_1FFF] == 0x58 && m[0x3_0000] == 0x59 && m[0x3_0001] == 0x59
  {
    BytesOfOutsdValue();
  }

  /** What the pattern tells about both accesses together; a faithful emulator passes. */
  lemma PatternDetects(filled: Memory, d: Quad, q: Quad, n: Memory)
    requires IsFilled(filled) && d.IsIn(filled) && q.IsIn(filled)
    requires var m := AtOutput(filled, d); IsFinished(m, Latched(Gather(m, q)), n)
    ensures Matches(Line(n)) <==> Delivers(d) && Sees(AtOutput(filled, d), q)
    ensures d == INSD_QUAD && q == OUTSD_QUAD ==> Matches(Line(n))
  {
    var m := AtOutput(filled, d);
    OutsdDetects(m, q);
    LineDetects(filled, d, Latched(Gather(m, q)), n);
    if d == INSD_QUAD && q == OUTSD_QUAD {
      DeliversIs(d);
      SecondWordLies(filled, d);
    }
  }

  /** The marker ends the line, and a matching line has no other end inside. */
  lemma LineEnds(m: Memory, w: Word, n: Memory)
    requires IsFinished(m, w, n)
    ensures Line(n)[LINE_SIZE - 2] == 13 && Line(n)[LINE_SIZE - 1] == 10
    ensures Matches(Line(n)) ==> 10 !in Line(n)[..LINE_SIZE - 1]
  {
    ExpectedIs();
    assert LinePhys(52) == MARKER_PHYS + 15 && LinePhys(53) == MARKER_PHYS + 16;
    if Matches(Line(n)) {
      forall k | 0 <= k < LINE_SIZE - 1 ensures Line(n)[k] != 10 {
        if k < 52 {
          assert Line(n)[k] == Expected()[k];
          NoLineEndExpected(k);
        }
      }
    }
  }

  lemma NoLineEndExpected(k: nat)
    requires k < 52
    ensures k < |Expected()| && Expected()[k] != 10
  {
    ExpectedIs();
  }

  /** The fourth byte of the first word at any other address spoils the line. */
  lemma MisplacedByteIsSeen(filled: Memory, p: nat, w: Word, n: Memory)
    requires IsFilled(filled) && p < |filled|
    requires IsFinished(AtOutput(filled, INSD_QUAD.(a3 := p)), w, n)
    ensures Matches(Line(n)) <==> p == 0x3_1000 && w == OUTSD_VALUE
  {
    LineDetects(filled, INSD_QUAD.(a3 := p), w, n);
    DeliversIs(INSD_QUAD.(a3 := p));
  }

  /** Reading the last two bytes elsewhere is seen unless "YY" happens to lie there. */
  lemma MisreadBytesAreSeen(filled: Memory, q2: nat, q3: nat, n: Memory)
    requires IsFilled(filled) && q2 < |filled| && q3 < |filled|
    requires var m := AtOutput(filled, INSD_QUAD);
      IsFinished(m, Latched(Gather(m, OUTSD_QUAD.(a2 := q2, a3 := q3))), n)
    ensures var m := AtOutput(filled, INSD_QUAD);
      Matches(Line(n)) <==> m[q2] == 0x59 && m[q3] == 0x59
  {
    var m := AtOutput(filled, INSD_QUAD);
    var q := OUTSD_QUAD.(a2 := q2, a3 := q3);
    SecondWordLies(filled, INSD_QUAD);
    LineDetects(filled, INSD_QUAD, Latched(Gather(m, q)), n);
    DeliversIs(INSD_QUAD);
    OutsdDetects(m, q);
  }

  // The machine

  /** Only the page tables differ. */
  ghost predicate OnlyTablesChange(m: Memory, n: Memory)
  {
    |n| == |m| && forall a {:trigger n[a]} :: 0 <= a < |m| && !InTables(a) ==> n[a] == m[a]
  }

  ghost predicate OnlyBufferChanges(m: Memory, n: Memory)
  {
    |n| == |m| && forall a {:trigger n[a]} :: 0 <= a < |m| && !InBuffer(a) ==> n[a] == m[a]
  }

  ghost predicate HasMarker(m: Memory, marker: nat)
  {
    && RAM_NEEDED <= |m| && CODE <= marker && marker + MARKER_SIZE <= CODE_END
    && forall k {:trigger MARKER[k]} :: 0 <= k < MARKER_SIZE ==> m[marker + k] == MARKER[k]
  }

  lemma TableIsIdentical(frames: seq<Frame>, page: nat)
    requires |frames| == ENTRIES && frames[0x21] == 0x21 && page < ENTRIES
    ensures PhysQuad(frames, PAGE_TABLE + 4 * page) == Straight(PAGE_TABLE + 4 * page)
  {
  }

  lemma RemapChanges(m: Memory, frames: seq<Frame>, page: nat, frame: Frame, n: Memory)
    requires HasTable(m, frames) && page < ENTRIES
    requires n == Scatter(m, Straight(PAGE_TABLE + 4 * page), frame * PAGE + FLAGS)
    ensures HasTable(n, frames[page := frame]) && OnlyTablesChange(m, n)
  {
    EntryChanges(m, frames, page, frame);
  }

  lemma CopyAddresses(marker: nat, k: nat)
    requires CODE <= marker && marker + MARKER_SIZE <= CODE_END && k < MARKER_SIZE
    ensures Phys(Final(), OUTPUT_END + k) == MARKER_PHYS + k && Phys(Final(), marker + k) == marker + k
  {
    BufferMaps(OUTPUT_END - BUFFER + k);
    CodeStays(marker + k);
  }

  lemma MarkerByteCopied(m: Memory, r: Memory, marker: nat, k: nat)
    requires HasMarker(m, marker) && k < MARKER_SIZE && HasCopied(m, r, k)
    ensures r[marker + k] == MARKER[k] && HasCopied(m, r[MARKER_PHYS + k := MARKER[k]], k + 1)
  {
    assert m[marker + k] == MARKER[k];
  }

  /** Only the page tables and the buffer differ. */
  ghost predicate OnlyWorkAreaChanges(m: Memory, n: Memory)
  {
    |n| == |m| && forall a {:trigger n[a]} :: 0 <= a < |m| && !InTables(a) && !InBuffer(a) ==> n[a] == m[a]
  }

  /** No byte goes to the page tables or the code. */
  predicate IsHarmless(d: Quad) { IsSpare(d.a0) && IsSpare(d.a1) && IsSpare(d.a2) && IsSpare(d.a3) }

  predicate IsSpare(a: nat) { !InTables(a) && !(CODE <= a < CODE_END) }

  /** A harmless access changes neither the tables nor the marker. */
  lemma HarmlessAccess(m: Memory, d: Quad, w: Word, marker: nat)
    requires HasTable(m, Final()) && HasMarker(m, marker) && d.IsIn(m) && IsHarmless(d)
    ensures HasTable(Scatter(m, d, w), Final()) && HasMarker(Scatter(m, d, w), marker)
  {
    var n := Scatter(m, d, w);
    TablesStay(m, n, Final());
    forall k | 0 <= k < MARKER_SIZE ensures n[marker + k] == MARKER[k] {
      assert m[marker + k] == MARKER[k];
    }
  }

  /** "XXYY", up to the bits the port clears. */
  predicate Sees(m: Memory, q: Quad)
    requires q.IsIn(m)
  {
    0x58 <= m[q.a0] < 0x5C && m[q.a1] == 0x58 && m[q.a2] == 0x59 && m[q.a3] == 0x59
  }

  /** Two pages are remapped, the rest of the first 4 MB is mapped to itself, and nothing else is mapped. */
  function FinalAddress(a: Word): Option<nat>
  {
    if 0x1_1000 <= a < 0x1_2000 then Some(a + 0x2_0000)
    else if 0x1_2000 <= a < 0x1_3000 then Some(a + 0x1_E000)
    else if a < 0x40_0000 then Some(a)
    else None
  }

  lemma FinalAddressIs(a: Word)
    ensures FinalAddress(a) == if a < 0x40_0000 then Some(Phys(Final(), a)) else None
  {
    if a < 0x40_0000 {
      assert Final()[a / PAGE] == if a / PAGE == 0x11 then 0x31 else if a / PAGE == 0x12 then 0x30 else a / PAGE;
    }
  }

  /** Where a faithful emulator finds the bytes of the three accesses. */
  lemma BufferQuads()
    ensures PhysQuad(Final(), INSD_TARGET) == INSD_QUAD
    ensures PhysQuad(Final(), OUTSD_SRC) == OUTSD_QUAD
    ensures PhysQuad(Final(), READBACK) == Straight(READBACK_PHYS)
  {
    forall k | 0 <= k < BUFFER_SIZE ensures Phys(Final(), BUFFER + k) == BufferPhys(k) {
      BufferMaps(k);
    }
    assert forall a :: BUFFER <= a < BUFFER + BUFFER_SIZE ==> Phys(Final(), a) == Phys(Final(), BUFFER + (a - BUFFER));
  }

  /** The bytes written by pass `i` are the line. */
  ghost predicate HasLine(before: seq<Byte>, after: seq<Byte>, line: seq<Byte>, i: nat)
  {
    var at := |before| + i * LINE_SIZE;
    at + LINE_SIZE <= |after| && after[at..at + LINE_SIZE] == line
  }

  /** `after` is `before` and then the line, `n` times. */
  ghost predicate IsRepeated(before: seq<Byte>, after: seq<Byte>, line: seq<Byte>, n: nat)
  {
    && |line| == LINE_SIZE && |after| == |before| + n * LINE_SIZE && after[..|before|] == before
    && forall i :: 0 <= i < n ==> HasLine(before, after, line, i)
  }

  lemma RepeatedOnceMore(before: seq<Byte>, after: seq<Byte>, line: seq<Byte>, n: nat)
    requires IsRepeated(before, after, line, n)
    ensures IsRepeated(before, after + line, line, n + 1)
  {
    forall i | 0 <= i < n + 1
      ensures HasLine(before, after + line, line, i)
    {
      if i < n {
        assert HasLine(before, after, line, i);
        var at := |before| + i * LINE_SIZE;
        assert (after + line)[at..at + LINE_SIZE] == after[at..at + LINE_SIZE];
      }
    }
  }

  lemma CodeStays(a: nat)
    requires CODE <= a < CODE_END
    ensures Phys(Final(), a) == a
  {
  }

  lemma BufferIsCovered(a: nat)
    requires InBuffer(a)
    ensures exists k :: 0 <= k < BUFFER_SIZE && BufferPhys(k) == a
  {
    var k := if a < 0x1_1000 then a - 0x1_0000 else if a < 0x3_1000 then a - 0x2_E000 else a - 0x3_0000;
    assert BufferPhys(k) == a;
  }

  class Machine {
    var memory: Memory
    var latch: Word
    var output: seq<Byte>
    const marker: nat

    constructor (memory: Memory, latch: Word, marker: nat)
      ensures this.memory == memory && this.marker == marker && output == []
    {
      this.memory, this.latch, this.marker := memory, latch, marker;
      output := [];
    }

    method ClearDirectory()
      requires RAM_NEEDED <= |memory|
      modifies this`memory
      ensures OnlyTablesChange(old(memory), memory)
      ensures forall i :: 0 <= i < ENTRIES ==> Pde(memory, i) == 0
    {
      for i := 0 to ENTRIES
        invariant OnlyTablesChange(old(memory), memory)
        invariant forall j :: 0 <= j < i ==> Pde(memory, j) == 0
      {
        ghost var before := memory;
        memory := Scatter(memory, Straight(PAGE_DIR + 4 * i), 0);
        EntryCleared(before, memory, i);
      }
    }

    method FillTable()
      requires RAM_NEEDED <= |memory|
      modifies this`memory
      ensures OnlyTablesChange(old(memory), memory)
      ensures forall i :: 0 <= i < ENTRIES ==> Pde(memory, i) == old(Pde(memory, i))
      ensures forall p :: 0 <= p < ENTRIES ==> Pte(memory, p) == p * PAGE + FLAGS
    {
      var edi, eax, ecx := PAGE_TABLE, FLAGS, ENTRIES;
      while ecx > 0
        invariant 0 <= ecx <= ENTRIES
        invariant edi == PAGE_TABLE + 4 * (ENTRIES - ecx) && eax == FLAGS + PAGE * (ENTRIES - ecx)
        invariant OnlyTablesChange(old(memory), memory)
        invariant forall i :: 0 <= i < ENTRIES ==> Pde(memory, i) == old(Pde(memory, i))
        invariant forall p :: 0 <= p < ENTRIES - ecx ==> Pte(memory, p) == p * PAGE + FLAGS
      {
        ghost var before, page := memory, ENTRIES - ecx;
        memory := Scatter(memory, Straight(edi), eax);
        GatherOfScatter(before, edi, eax);
        forall i | 0 <= i < ENTRIES
          ensures Pde(memory, i) == Pde(before, i) && (i != page ==> Pte(memory, i) == Pte(before, i))
        {
          OtherEntriesStay(before, page, eax, i);
        }
        edi, eax, ecx := edi + 4, eax + PAGE, ecx - 1;
      }
    }

    /** From any memory: the first 4 MB mapped to themselves, and nothing else mapped. */
    method BuildTables()
      requires RAM_NEEDED <= |memory|
      modifies this`memory
      ensures OnlyTablesChange(old(memory), memory) && HasTable(memory, Identity())
      ensures forall a: Word :: Translate(memory, a) == if a < 0x40_0000 then Some(a) else None
    {
      ClearDirectory();
      FillTable();
      ghost var before := memory;
      memory := Scatter(memory, Straight(PAGE_DIR), PAGE_TABLE + FLAGS);
      GatherOfScatter(before, PAGE_DIR, PAGE_TABLE + FLAGS);
      forall i | 0 <= i < ENTRIES
        ensures (i != 0 ==> Pde(memory, i) == Pde(before, i)) && Pte(memory, i) == Pte(before, i)
      {
        OtherDirEntriesStay(before, 0, PAGE_TABLE + FLAGS, i);
      }
      forall a: Word ensures Translate(memory, a) == if a < 0x40_0000 then Some(a) else None {
        TranslateIs(memory, Identity(), a);
      }
    }

    // With paging on, every access is translated

    function Walk(a: Word): nat
      requires TABLES_END <= |memory| && Translate(memory, a).Some?
      reads this
    {
      Translate(memory, a).value
    }

    method LoadByte(a: Word, ghost frames: seq<Frame>) returns (b: Byte)
      requires HasTable(memory, frames) && a < 0x40_0000 && Phys(frames, a) < |memory|
      ensures b == memory[Phys(frames, a)]
    {
      TranslateIs(memory, frames, a);
      b := memory[Walk(a)];
    }

    method StoreByte(a: Word, b: Byte, ghost frames: seq<Frame>)
      requires HasTable(memory, frames) && a < 0x40_0000
      requires Phys(frames, a) < |memory| && !InTables(Phys(frames, a))
      modifies this`memory
      ensures memory == old(memory)[Phys(frames, a) := b] && HasTable(memory, frames)
    {
      TranslateIs(memory, frames, a);
      memory := memory[Walk(a) := b];
      TablesStay(old(memory), memory, frames);
    }

    method Store(a: Word, w: Word, ghost frames: seq<Frame>)
      requires HasTable(memory, frames) && a + 4 <= 0x40_0000 && PhysQuad(frames, a).IsIn(memory)
      modifies this`memory
      ensures memory == Scatter(old(memory), PhysQuad(frames, a), w)
    {
      TranslateIs(memory, frames, a);
      TranslateIs(memory, frames, a + 1);
      TranslateIs(memory, frames, a + 2);
      TranslateIs(memory, frames, a + 3);
      memory := Scatter(memory, Quad(Walk(a), Walk(a + 1), Walk(a + 2), Walk(a + 3)), w);
    }

    /** Rewrites an entry of the live table, through the table itself. */
    method Remap(page: nat, frame: Frame, ghost frames: seq<Frame>)
      requires HasTable(memory, frames) && frames[0x21] == 0x21 && page < ENTRIES
      modifies this`memory
      ensures HasTable(memory, frames[page := frame]) && OnlyTablesChange(old(memory), memory)
    {
      var entry: Word := frame * PAGE + FLAGS;
      TableIsIdentical(frames, page);
      RemapChanges(memory, frames, page, frame, Scatter(memory, Straight(PAGE_TABLE + 4 * page), entry));
      Store(PAGE_TABLE + 4 * page, entry, frames);
    }

    method FillBuffer()
      requires HasTable(memory, Final()) && RAM_NEEDED <= |memory|
      modifies this`memory
      ensures HasTable(memory, Final()) && IsFilled(memory) && OnlyBufferChanges(old(memory), memory)
    {
      for i := 0 to BUFFER_SIZE
        invariant HasTable(memory, Final()) && OnlyBufferChanges(old(memory), memory)
        invariant forall k :: 0 <= k < i ==> memory[BufferPhys(k)] == 0x41
      {
        BufferMaps(i);
        BufferIsSafe(i, i);
        StoreByte(BUFFER + i, 0x41, Final());
      }
      forall a: nat | InBuffer(a) ensures memory[a] == 0x41 {
        BufferIsCovered(a);
      }
    }

    /** The emulated read from the port: the hypervisor decides where each byte goes. */
    method Insd(d: Quad)
      requires d.IsIn(memory)
      modifies this`memory
      ensures memory == Scatter(old(memory), d, latch)
    {
      memory := Scatter(memory, d, latch);
    }

    /** The emulated write to the port: the hypervisor decides where each byte comes from. */
    method Outsd(q: Quad)
      requires q.IsIn(memory)
      modifies this`latch
      ensures latch == Latched(Gather(memory, q))
    {
      latch := Latched(Gather(memory, q));
    }

    method CopyByte(k: nat, ghost m: Memory, ghost frames: seq<Frame>)
      requires HasTable(memory, frames) && HasMarker(m, marker) && k < MARKER_SIZE && HasCopied(m, memory, k)
      requires Phys(frames, OUTPUT_END + k) == MARKER_PHYS + k && Phys(frames, marker + k) == marker + k
      modifies this`memory
      ensures HasTable(memory, frames) && HasCopied(m, memory, k + 1)
    {
      MarkerByteCopied(m, memory, marker, k);
      var b := LoadByte(marker + k, frames);
      StoreByte(OUTPUT_END + k, b, frames);
    }

    method CopyMarker()
      requires HasTable(memory, Final()) && HasMarker(memory, marker)
      modifies this`memory
      ensures HasTable(memory, Final())
      ensures HasCopied(old(memory), memory, MARKER_SIZE)
    {
      for i := 0 to MARKER_SIZE
        invariant HasTable(memory, Final()) && HasCopied(old(memory), memory, i)
      {
        CopyAddresses(marker, i);
        CopyByte(i, old(memory), Final());
      }
    }

    /** One pass of the output loop. */
    method Pass()
      requires HasTable(memory, Final()) && RAM_NEEDED <= |memory|
      modifies this`output
      ensures output == old(output) + Line(memory)
    {
      var esi, ecx := OUTPUT_START, LINE_SIZE;
      while ecx > 0
        invariant 0 <= ecx <= LINE_SIZE && esi == OUTPUT_START + (LINE_SIZE - ecx)
        invariant output == old(output) + Line(memory)[..LINE_SIZE - ecx]
      {
        BufferMaps(esi - BUFFER);
        BufferIsSafe(esi - BUFFER, esi - BUFFER);
        var al := LoadByte(esi, Final());
        output := output + [al];
        esi, ecx := esi + 1, ecx - 1;
      }
    }

    /** Tables, remaps and fill: from any memory that holds the payload. */
    method Boot()
      requires HasMarker(memory, marker)
      modifies this`memory
      ensures HasTable(memory, Final()) && IsFilled(memory) && HasMarker(memory, marker)
      ensures OnlyWorkAreaChanges(old(memory), memory)
      ensures forall a: Word :: Translate(memory, a) == FinalAddress(a)
    {
      BuildTables();
      Remap(0x11, 0x31, Identity());
      Remap(0x12, 0x30, Identity()[0x11 := 0x31]);
      FillBuffer();
      forall a: Word ensures Translate(memory, a) == FinalAddress(a) {
        TranslateIs(memory, Final(), a);
        FinalAddressIs(a);
      }
    }

    /** Both words across the boundary, the readback and the marker. */
    method Exchange(d: Quad, q: Quad)
      requires HasTable(memory, Final()) && HasMarker(memory, marker)
      requires IsHarmless(d) && d.IsIn(memory) && q.IsIn(memory)
      modifies this`memory, this`latch
      ensures HasTable(memory, Final())
      ensures var m := AtOutput(old(memory), d); IsFinished(m, Latched(Gather(m, q)), memory)
    {
      BufferQuads();
      HarmlessAccess(memory, d, PCI_VALUE, marker);
      HarmlessAccess(Scatter(memory, d, PCI_VALUE), OUTSD_QUAD, OUTSD_VALUE, marker);
      latch := Latched(PCI_VALUE);
      Insd(d);
      Store(OUTSD_SRC, OUTSD_VALUE, Final());
      Outsd(q);
      HarmlessAccess(memory, Straight(READBACK_PHYS), latch, marker);
      Store(READBACK, latch, Final());
      CopyMarker();
    }

    method MainLoop(passes: nat)
      requires HasTable(memory, Final()) && RAM_NEEDED <= |memory|
      modifies this`output
      ensures IsRepeated(old(output), output, Line(memory), passes)
    {
      for i := 0 to passes
        invariant IsRepeated(old(output), output, Line(memory), i)
      {
        RepeatedOnceMore(old(output), output, Line(memory), i);
        Pass();
      }
    }

    /**
     * Every pass prints the same line, and it matches the test's pattern exactly when the emulator put the first word
     * where it belongs, up to an exchange of equal bytes, and read "XXYY" for the second.
     */
    method Run(d: Quad, q: Quad, passes: nat) returns (ghost filled: Memory)
      requires HasMarker(memory, marker) && IsHarmless(d) && d.IsIn(memory) && q.IsIn(memory)
      modifies this`memory, this`latch, this`output
      ensures RAM_NEEDED <= |memory| && IsRepeated(old(output), output, Line(memory), passes)
      ensures IsFilled(filled) && OnlyWorkAreaChanges(old(memory), filled)
      ensures Matches(Line(memory)) <==> Delivers(d) && Sees(AtOutput(filled, d), q)
      ensures d == INSD_QUAD && q == OUTSD_QUAD ==> Matches(Line(memory))
      ensures Line(memory)[LINE_SIZE - 2] == 13 && Line(memory)[LINE_SIZE - 1] == 10
      ensures Matches(Line(memory)) ==> 10 !in Line(memory)[..LINE_SIZE - 1]
    {
      Boot();
      filled := memory;
      Exchange(d, q);
      PatternDetects(filled, d, q, memory);
      LineEnds(AtOutput(filled, d), Latched(Gather(AtOutput(filled, d), q)), memory);
      MainLoop(passes);
    }
  }
}
