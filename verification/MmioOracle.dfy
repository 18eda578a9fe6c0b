/**
 * The bare-metal MMIO payload as an oracle over the emulator's register transfer. Every MMIO access loads the guest's
 * registers through one mapping, emulates one move, and stores them back through another.
 */
module MmioOracle {
  import opened Words

  datatype Reg = EAX | EBX | ECX | EDX | ESI | EDI | EBP | ESP

  datatype File = File(eax: Word, ebx: Word, ecx: Word, edx: Word, esi: Word, edi: Word, ebp: Word, esp: Word) {
    function At(r: Reg): Word
    {
      match r
      case EAX => eax
      case EBX => ebx
      case ECX => ecx
      case EDX => edx
      case ESI => esi
      case EDI => edi
      case EBP => ebp
      case ESP => esp
    }

    function Set(r: Reg, w: Word): File
    {
      match r
      case EAX => this.(eax := w)
      case EBX => this.(ebx := w)
      case ECX => this.(ecx := w)
      case EDX => this.(edx := w)
      case ESI => this.(esi := w)
      case EDI => this.(edi := w)
      case EBP => this.(ebp := w)
      case ESP => this.(esp := w)
    }
  }

  // The emulator

  /** A permutation of the registers with its inverse. */
  datatype Mapping = Mapping(to: Reg -> Reg, from: Reg -> Reg) {
    function To(r: Reg): Reg { to(r) }

    function From(r: Reg): Reg { from(r) }

    /** The stack pointer is out of reach of a mapping that lets the payload run at all. */
    ghost predicate IsValid()
    {
      To(ESP) == ESP && forall r :: To(From(r)) == r && From(To(r)) == r
    }
  }

  /**
   * Emulated register `r` is loaded from guest register `load.To(r)` and stored to `store.To(r)`; the carry flag comes
   * back as `whenSet` or `whenClear`.
   */
  datatype Emulator = Emulator(load: Mapping, store: Mapping, whenSet: bool, whenClear: bool) {
    ghost predicate IsValid() { load.IsValid() && store.IsValid() }

    ghost predicate Agrees() { forall r :: load.To(r) == store.To(r) }

    ghost predicate Fixes(r: Reg) { load.To(r) == r && store.To(r) == r }

    /** Both maps agree and leave the four data registers in place. */
    ghost predicate TransfersData() { Agrees() && Fixes(EAX) && Fixes(EBX) && Fixes(ECX) && Fixes(EDX) }

    /** The guest register whose value a write leaves in `r`. */
    function Source(r: Reg): Reg { load.To(store.From(r)) }

    function Carry(flag: bool): bool { if flag then whenSet else whenClear }

    ghost predicate IsAfterWrite(regs: File, after: File)
    {
      forall r {:trigger after.At(r)} :: after.At(r) == regs.At(Source(r))
    }

    /** The guest's registers after an emulated read of `w` into `d`. */
    ghost predicate IsAfterRead(regs: File, after: File, d: Reg, w: Word)
    {
      forall r {:trigger after.At(r)} :: after.At(r) == if store.From(r) == d then w else regs.At(Source(r))
    }
  }

  lemma SetAt(regs: File, d: Reg, w: Word)
    ensures forall r :: regs.Set(d, w).At(r) == if r == d then w else regs.At(r)
  {
  }

  lemma AgreeingSource(e: Emulator, r: Reg)
    requires e.IsValid() && e.Agrees()
    ensures e.Source(r) == r
  {
    assert e.store.To(e.store.From(r)) == r;
  }

  lemma AgreeingReadReaches(e: Emulator, before: File, after: File, d: Reg, w: Word, r: Reg)
    requires e.IsValid() && e.Agrees() && e.IsAfterRead(before, after, d, w)
    ensures after.At(r) == if r == e.store.To(d) then w else before.At(r)
  {
    AgreeingSource(e, r);
    assert e.store.To(e.store.From(r)) == r && e.store.From(e.store.To(d)) == d;
  }

  lemma ReadIntoEaxArrives(e: Emulator, before: File, after: File, w: Word)
    requires e.IsValid() && e.IsAfterRead(before, after, EAX, w)
    ensures e.Agrees() && e.Fixes(EAX) ==> after.At(EAX) == w
  {
    assert e.store.From(e.store.To(EAX)) == EAX;
  }

  lemma AgreeingWriteKeeps(e: Emulator, before: File, after: File, r: Reg)
    requires e.IsValid() && e.Agrees() && e.IsAfterWrite(before, after)
    ensures after.At(r) == before.At(r)
  {
    AgreeingSource(e, r);
  }

  /** With agreeing maps, a read tells whether it reaches its destination, provided its value is new there. */
  lemma DestinationDetects(e: Emulator, before: File, after: File, d: Reg, w: Word)
    requires e.IsValid() && e.Agrees() && e.IsAfterRead(before, after, d, w) && before.At(d) != w
    ensures after.At(d) == w <==> e.Fixes(d)
    ensures e.Fixes(d) ==> forall r :: r != d ==> after.At(r) == before.At(r)
  {
    AgreeingReadReaches(e, before, after, d, w, d);
    forall r | e.Fixes(d) && r != d ensures after.At(r) == before.At(r) {
      AgreeingReadReaches(e, before, after, d, w, r);
    }
  }

  /** A write and a read into EAX change nothing but EAX. */
  lemma OnlyEaxChanges(e: Emulator, before: File, between: File, after: File, w: Word)
    requires e.IsValid() && e.Agrees() && e.Fixes(EAX)
    requires e.IsAfterWrite(before, between) && e.IsAfterRead(between, after, EAX, w)
    ensures after.At(EAX) == w && forall r :: r != EAX ==> after.At(r) == before.At(r)
  {
    forall r ensures after.At(r) == if r == EAX then w else before.At(r) {
      AgreeingReadReaches(e, between, after, EAX, w, r);
      AgreeingWriteKeeps(e, before, between, r);
    }
  }

  lemma StackPointerIsOwn(e: Emulator, r: Reg)
    requires e.IsValid()
    ensures e.Source(r) == ESP <==> r == ESP
    ensures e.store.From(r) == ESP <==> r == ESP
  {
    var x := e.store.From(r);
    assert e.store.To(x) == r && e.store.From(e.store.To(ESP)) == ESP;
    assert e.load.From(e.load.To(x)) == x && e.load.From(e.load.To(ESP)) == ESP;
  }

  // Preservation: what one read into EAX reveals

  predicate IsWatched(r: Reg) { r != EAX && r != ESP }

  ghost predicate Survive(before: File, after: File) { forall r :: IsWatched(r) ==> after.At(r) == before.At(r) }

  /** Every watched register holds a value no other register but ESP holds. */
  ghost predicate AreDistinct(regs: File)
  {
    forall a, b :: a != ESP && IsWatched(b) && regs.At(a) == regs.At(b) ==> a == b
  }

  ghost predicate IsNew(regs: File, w: Word) { forall r :: IsWatched(r) ==> regs.At(r) != w }

  /** The watched registers survive a read into EAX exactly when the two maps agree and fix EAX. */
  lemma PreservationDetects(e: Emulator, before: File, after: File, w: Word)
    requires e.IsValid() && AreDistinct(before) && IsNew(before, w) && e.IsAfterRead(before, after, EAX, w)
    ensures Survive(before, after) <==> e.Agrees() && e.Fixes(EAX)
  {
    if e.Agrees() && e.Fixes(EAX) {
      forall r | IsWatched(r) ensures after.At(r) == before.At(r) {
        AgreeingSource(e, r);
        assert e.store.To(e.store.From(r)) == r;
      }
    }
    if Survive(before, after) {
      forall r | IsWatched(r) ensures e.store.From(r) != EAX && e.Source(r) == r {
        SurvivorIsOwnSource(e, before, after, w, r);
      }
      OwnSourcesForceAgreement(e);
    }
  }

  lemma SurvivorIsOwnSource(e: Emulator, before: File, after: File, w: Word, r: Reg)
    requires e.IsValid() && AreDistinct(before) && IsNew(before, w) && e.IsAfterRead(before, after, EAX, w)
    requires IsWatched(r) && after.At(r) == before.At(r)
    ensures e.store.From(r) != EAX && e.Source(r) == r
  {
    StackPointerIsOwn(e, r);
  }

  lemma OwnSourcesForceAgreement(e: Emulator)
    requires e.IsValid()
    requires forall r :: IsWatched(r) ==> e.store.From(r) != EAX && e.Source(r) == r
    ensures e.Agrees() && e.Fixes(EAX)
  {
    assert e.store.To(EAX) == EAX by {
      StackPointerIsOwn(e, e.store.To(EAX));
    }
    assert e.load.To(EAX) == EAX by {
      LastOneStays(e);
    }
    forall r ensures e.load.To(r) == e.store.To(r) {
      assert e.store.From(e.store.To(r)) == r;
    }
  }

  lemma LastOneStays(e: Emulator)
    requires e.IsValid()
    requires forall r :: IsWatched(r) ==> e.store.From(r) != EAX && e.Source(r) == r
    ensures e.load.To(EAX) == EAX
  {
    var x := e.load.To(EAX);
    assert e.load.From(x) == EAX && e.load.From(ESP) == ESP;
    assert IsWatched(x) ==> e.load.From(e.Source(x)) == e.store.From(x);
  }

  // What the preservation test does not see

  function Swap(a: Reg, b: Reg): Mapping
  {
    var f := r => if r == a then b else if r == b then a else r;
    Mapping(f, f)
  }

  lemma SwapExchanges(a: Reg, b: Reg)
    ensures Swap(a, b).To(a) == b && Swap(a, b).To(b) == a && forall r :: r != a && r != b ==> Swap(a, b).To(r) == r
    ensures a != ESP && b != ESP ==> Swap(a, b).IsValid()
  {
  }

  /** A symmetric swap of two data registers passes the preservation test. */
  lemma SymmetricSwapPassesPreservation(a: Reg, b: Reg) returns (e: Emulator)
    requires a in {EBX, ECX, EDX} && b in {EBX, ECX, EDX} && a != b
    ensures e.IsValid() && e.load == e.store == Swap(a, b)
    ensures e.Agrees() && e.Fixes(EAX) && !e.TransfersData()
  {
    e := Emulator(Swap(a, b), Swap(a, b), true, false);
    assert e.load.To(a) == b;
    assert !e.Fixes(a);
  }

  // The payload

  const VERSION_LIMIT := 0x100_0000

  function Magic(r: Reg): Word
  {
    match r
    case EBX => 0xDEADBEEF
    case ECX => 0xCAFEBABE
    case EDX => 0x12345678
    case ESI => 0xABCD1234
    case EDI => 0x87654321
    case EBP => 0xFEEDFACE
    case _ => 0
  }

  predicate HoldsMagics(regs: File)
  {
    regs.At(EBX) == Magic(EBX) && regs.At(ECX) == Magic(ECX) && regs.At(EDX) == Magic(EDX)
    && regs.At(ESI) == Magic(ESI) && regs.At(EDI) == Magic(EDI) && regs.At(EBP) == Magic(EBP)
  }

  /** AL holds the letter of the first test, which ends no magic value. */
  predicate HasLetter(w: Word) { w % 256 == 0x41 || w % 256 == 0x61 }

  lemma MagicsSuffice(regs: File, w: Word)
    requires HoldsMagics(regs) && HasLetter(regs.At(EAX)) && w < VERSION_LIMIT
    ensures AreDistinct(regs) && IsNew(regs, w)
  {
    forall a, b | a != ESP && IsWatched(b) && regs.At(a) == regs.At(b) ensures a == b {
      MagicsAreDistinct(regs, a, b);
    }
    forall r | IsWatched(r) ensures regs.At(r) != w {
      MagicIsHeld(regs, r);
    }
  }

  /** Six magic values survive a read of a version into EAX exactly when the two maps agree and fix EAX. */
  lemma MagicsDetect(e: Emulator, before: File, after: File, w: Word)
    requires e.IsValid() && e.IsAfterRead(before, after, EAX, w)
    requires HoldsMagics(before) && HasLetter(before.At(EAX)) && w < VERSION_LIMIT
    ensures HoldsMagics(after) <==> e.Agrees() && e.Fixes(EAX)
  {
    MagicsSuffice(before, w);
    PreservationDetects(e, before, after, w);
    MagicsSurvive(before, after);
  }

  lemma MagicsAreDistinct(regs: File, a: Reg, b: Reg)
    requires HoldsMagics(regs) && HasLetter(regs.At(EAX)) && a != ESP && IsWatched(b) && regs.At(a) == regs.At(b)
    ensures a == b
  {
  }

  lemma MagicIsHeld(regs: File, r: Reg)
    requires HoldsMagics(regs) && IsWatched(r)
    ensures regs.At(r) == Magic(r) >= VERSION_LIMIT
  {
  }

  lemma MagicsSurvive(before: File, after: File)
    requires HoldsMagics(before)
    ensures HoldsMagics(after) <==> Survive(before, after)
  {
    if HoldsMagics(after) {
      forall r | IsWatched(r) ensures after.At(r) == before.At(r) {
        MagicIsHeld(before, r);
        MagicIsHeld(after, r);
      }
    }
    assert IsWatched(EBX) && IsWatched(ECX) && IsWatched(EDX) && IsWatched(ESI) && IsWatched(EDI) && IsWatched(EBP);
  }

  const IOREGSEL: Word := 0xFEC0_0000
  const IOWIN: Word := 0xFEC0_0010

  /** The interrupt controller: `window` is what the register selected by a word reads as; `bus` answers elsewhere. */
  datatype Device = Device(window: Word -> Word, bus: Word -> Word) {
    ghost predicate IsValid() { forall s :: Window(s) < VERSION_LIMIT }

    function Window(selected: Word): Word { window(selected) }

    function Read(address: Word, selected: Word): Word
    {
      if address == IOWIN then Window(selected) else if address == IOREGSEL then selected else bus(address)
    }
  }

  datatype Operand = Absolute(address: Word) | Based(reg: Reg)

  /** The version byte and the number of redirection entries are not zero. */
  predicate IsPlausible(w: Word) { w % 256 != 0 && w / 0x1_0000 % 256 != 0 }

  // The first read, when the maps agree and fix EAX

  /** The first write is addressed by EDI, which was just pointed at the selector. */
  predicate ReachesSelector(e: Emulator, regs: File)
  {
    e.load.To(EDI) == EDI || regs.At(e.load.To(EDI)) == IOREGSEL
  }

  /** The first read is addressed by ESI, which was just pointed at the window, after EDI at the selector. */
  function FirstAddress(e: Emulator, regs: File): Word
  {
    if e.load.To(ESI) == ESI then IOWIN else if e.load.To(ESI) == EDI then IOREGSEL else regs.At(e.load.To(ESI))
  }

  function FirstRead(e: Emulator, device: Device, regs: File, selected: Word): Word
  {
    device.Read(FirstAddress(e, regs), if ReachesSelector(e, regs) then 1 else selected)
  }

  lemma FirstReadArrives(e: Emulator, device: Device, regs: File, selected: Word,
                         before: File, between: File, moved: File, after: File)
    requires e.IsValid() && e.Agrees() && e.Fixes(EAX)
    requires before.At(EAX) == 1 && before.At(EDI) == IOREGSEL
    requires forall r :: r != EAX && r != EDI ==> before.At(r) == regs.At(r)
    requires e.IsAfterWrite(before, between)
    requires moved.At(ESI) == IOWIN && forall r :: r != ESI ==> moved.At(r) == between.At(r)
    requires var s := if before.At(e.load.To(EDI)) == IOREGSEL then before.At(e.load.To(EAX)) else selected;
      e.IsAfterRead(moved, after, EAX, device.Read(moved.At(e.load.To(ESI)), s))
    ensures after.At(EAX) == FirstRead(e, device, regs, selected)
  {
    OthersAvoidEax(e, EDI);
    OthersAvoidEax(e, ESI);
    AgreeingWriteKeeps(e, before, between, e.load.To(ESI));
    var s := if before.At(e.load.To(EDI)) == IOREGSEL then 1 else selected;
    ReadIntoEaxArrives(e, moved, after, device.Read(moved.At(e.load.To(ESI)), s));
  }

  lemma OthersAvoidEax(e: Emulator, r: Reg)
    requires e.IsValid() && e.Fixes(EAX) && r != EAX
    ensures e.load.To(r) != EAX
  {
    assert e.load.From(e.load.To(r)) == r && e.load.From(e.load.To(EAX)) == EAX;
  }

  /** Emulators that fix both base registers read the version register first, whatever was selected. */
  lemma FixedBasesReadVersion(e: Emulator, device: Device, regs: File, selected: Word)
    requires e.Fixes(ESI) && e.Fixes(EDI)
    ensures FirstRead(e, device, regs, selected) == device.Window(1)
  {
  }

  /**
   * A symmetric swap of EDI and EBP transfers the data registers faithfully, so only the first read can reveal it, and
   * it reads the version register only when EBP held the address of the selector; otherwise the register that was
   * selected before decides.
   */
  lemma BaseSwapDetects(device: Device, regs: File, selected: Word) returns (e: Emulator)
    ensures e.IsValid() && e.load == e.store == Swap(EDI, EBP) && e.TransfersData() && e.whenSet
    ensures FirstRead(e, device, regs, selected) == device.Window(if regs.At(EBP) == IOREGSEL then 1 else selected)
  {
    e := Emulator(Swap(EDI, EBP), Swap(EDI, EBP), true, false);
  }

  /**
   * When at the start nothing but the version register reads plausibly, the first test sees what the others cannot:
   * of the emulators that transfer the data registers it passes exactly those that fix all registers.
   */
  lemma FirstReadDetects(e: Emulator, device: Device, regs: File, selected: Word)
    requires e.IsValid() && e.TransfersData() && IsPlausible(device.Window(1))
    requires !IsPlausible(device.Window(selected)) && !IsPlausible(selected)
    requires regs.At(EBP) != IOREGSEL && regs.At(EBP) != IOWIN && !IsPlausible(device.bus(regs.At(EBP)))
    ensures IsPlausible(FirstRead(e, device, regs, selected)) <==> forall r :: e.Fixes(r)
  {
    BasesStayAmongBases(e, ESI);
    BasesStayAmongBases(e, EDI);
    BasesStayAmongBases(e, EBP);
    assert e.load.From(e.load.To(ESI)) == ESI && e.load.From(e.load.To(EDI)) == EDI;
    assert e.load.From(e.load.To(EBP)) == EBP;
    assert e.load.To(ESI) == e.store.To(ESI) && e.load.To(EDI) == e.store.To(EDI) && e.load.To(EBP) == e.store.To(EBP);
    if e.Fixes(ESI) && e.Fixes(EDI) {
      FixedBasesReadVersion(e, device, regs, selected);
      assert forall r :: e.Fixes(r);
    }
  }

  lemma BasesStayAmongBases(e: Emulator, r: Reg)
    requires e.IsValid() && e.TransfersData() && r in {ESI, EDI, EBP}
    ensures e.load.To(r) in {ESI, EDI, EBP}
  {
    var x := e.load.To(r);
    assert e.load.From(x) == r;
    assert e.load.From(e.load.To(EAX)) == EAX && e.load.From(e.load.To(EBX)) == EBX;
    assert e.load.From(e.load.To(ECX)) == ECX;
    assert e.load.From(e.load.To(EDX)) == EDX && e.load.From(e.load.To(ESP)) == ESP;
  }

  function WithLow(w: Word, c: char): (r: Word)
    requires c < 256 as char
    ensures r % 256 == c as int && r / 256 == w / 256
  {
    w / 256 * 256 + c as int
  }

  class Machine {
    const emulator: Emulator
    const device: Device
    var regs: File
    var stack: map<Word, Word>
    var carry: bool
    var selected: Word
    var output: string

    ghost predicate Valid() reads this { emulator.IsValid() && device.IsValid() }

    constructor (emulator: Emulator, device: Device, regs: File, stack: map<Word, Word>, selected: Word)
      requires emulator.IsValid() && device.IsValid()
      ensures Valid() && output == ""
      ensures this.emulator == emulator && this.device == device && this.regs == regs && this.selected == selected
    {
      this.emulator, this.device := emulator, device;
      this.regs, this.stack, this.selected := regs, stack, selected;
      carry, output := false, "";
    }

    function Address(a: Operand): Word
      reads this
    {
      match a
      case Absolute(address) => address
      case Based(reg) => regs.At(emulator.load.To(reg))
    }

    function Value(address: Word): Word
      reads this
    {
      device.Read(address, selected)
    }

    /** The emulator fetches the guest's registers. */
    method Load() returns (env: File)
      ensures forall r {:trigger env.At(r)} :: env.At(r) == regs.At(emulator.load.To(r))
    {
      var m := emulator.load;
      env := File(regs.At(m.To(EAX)), regs.At(m.To(EBX)), regs.At(m.To(ECX)), regs.At(m.To(EDX)),
                  regs.At(m.To(ESI)), regs.At(m.To(EDI)), regs.At(m.To(EBP)), regs.At(m.To(ESP)));
    }

    /** The emulator hands them back. */
    method Store(env: File)
      modifies this`regs
      ensures forall r {:trigger regs.At(r)} :: regs.At(r) == env.At(emulator.store.From(r))
    {
      var m := emulator.store;
      regs := File(env.At(m.From(EAX)), env.At(m.From(EBX)), env.At(m.From(ECX)), env.At(m.From(EDX)),
                   env.At(m.From(ESI)), env.At(m.From(EDI)), env.At(m.From(EBP)), env.At(m.From(ESP)));
    }

    method MmioRead(d: Reg, a: Operand)
      modifies this`regs, this`carry
      ensures emulator.IsAfterRead(old(regs), regs, d, old(Value(Address(a))))
      ensures carry == emulator.Carry(old(carry))
    {
      var env := Load();
      var w := Value(Address(a));
      SetAt(env, d, w);
      Store(env.Set(d, w));
      carry := emulator.Carry(carry);
    }

    method MmioWrite(s: Reg, a: Operand)
      modifies this`regs, this`carry, this`selected
      ensures emulator.IsAfterWrite(old(regs), regs)
      ensures selected == if old(Address(a)) == IOREGSEL then old(regs).At(emulator.load.To(s)) else old(selected)
      ensures carry == emulator.Carry(old(carry))
    {
      var env := Load();
      if Address(a) == IOREGSEL {
        selected := env.At(s);
      }
      Store(env);
      carry := emulator.Carry(carry);
    }

    method Move(r: Reg, w: Word)
      modifies this`regs
      ensures regs.At(r) == w && forall x :: x != r ==> regs.At(x) == old(regs).At(x)
    {
      regs := regs.Set(r, w);
    }

    method Compare(r: Reg, w: Word) returns (equal: bool)
      modifies this`carry
      ensures equal == (regs.At(r) == w)
    {
      equal := regs.At(r) == w;
      carry := regs.At(r) < w;
    }

    /** Puts the letter into AL and sends it to the serial port. */
    method Emit(c: char)
      requires c < 256 as char
      modifies this`regs, this`carry, this`output
      ensures regs == old(regs).Set(EAX, WithLow(old(regs).At(EAX), c))
      ensures output == old(output) + [c]
    {
      regs := regs.Set(EAX, WithLow(regs.At(EAX), c));
      carry := false;
      output := output + [c];
    }

    /** Puts the letter for the verdict into AL and sends it to the serial port. */
    method Conclude(passed: bool, upper: char, lower: char) returns (c: char)
      requires upper < 256 as char && lower < 256 as char
      modifies this`regs, this`carry, this`output
      ensures c == if passed then upper else lower
      ensures output == old(output) + [c] && regs.At(EAX) % 256 == c as int
      ensures forall r :: r != EAX ==> regs.At(r) == old(regs).At(r)
    {
      c := if passed then upper else lower;
      Emit(c);
    }

    /** T1: select the version register through EDI and read it through ESI. */
    method BasicAccess() returns (c: char)
      requires Valid()
      modifies this
      ensures Valid() && c in {'A', 'a'} && output == old(output) + [c] && HasLetter(regs.At(EAX))
      ensures var w := FirstRead(emulator, device, old(regs), old(selected));
        emulator.Agrees() && emulator.Fixes(EAX) ==> (c == 'A' <==> w % 256 != 0 && w / 0x1_0000 % 256 != 0)
      ensures regs.At(ESP) == old(regs).At(ESP)
      ensures emulator.Fixes(EAX) ==>
                selected == if ReachesSelector(emulator, old(regs)) then 1 else old(selected)
    {
      Move(EAX, 0x01);
      Move(EDI, IOREGSEL);
      ghost var before := regs;
      MmioWrite(EAX, Based(EDI));
      if emulator.Fixes(EAX) {
        OthersAvoidEax(emulator, EDI);
      }
      ghost var between := regs;
      Move(ESI, IOWIN);
      ghost var moved := regs;
      MmioRead(EAX, Based(ESI));
      StackPointerIsOwn(emulator, ESP);
      if emulator.Agrees() && emulator.Fixes(EAX) {
        FirstReadArrives(emulator, device, old(regs), old(selected), before, between, moved, regs);
      }
      c := Conclude(IsPlausible(regs.At(EAX)), 'A', 'a');
    }

    method LoadMagics()
      modifies this`regs
      ensures HoldsMagics(regs) && regs.At(EAX) == old(regs).At(EAX)
      ensures regs.At(EBX) == 0xDEADBEEF && regs.At(ECX) == 0xCAFEBABE && regs.At(EDX) == 0x12345678
      ensures regs.At(ESI) == 0xABCD1234 && regs.At(EDI) == 0x87654321 && regs.At(EBP) == 0xFEEDFACE
    {
      Move(EBX, Magic(EBX));
      Move(ECX, Magic(ECX));
      Move(EDX, Magic(EDX));
      Move(ESI, Magic(ESI));
      Move(EDI, Magic(EDI));
      Move(EBP, Magic(EBP));
    }

    method CompareMagics() returns (same: bool)
      modifies this`carry
      ensures same == HoldsMagics(regs)
    {
      same := Compare(EBX, Magic(EBX));
      if same { same := Compare(ECX, Magic(ECX)); }
      if same { same := Compare(EDX, Magic(EDX)); }
      if same { same := Compare(ESI, Magic(ESI)); }
      if same { same := Compare(EDI, Magic(EDI)); }
      if same { same := Compare(EBP, Magic(EBP)); }
    }

    /** T2: six registers across a read into EAX. */
    method Preservation() returns (c: char)
      requires Valid() && HasLetter(regs.At(EAX))
      modifies this
      ensures Valid() && c in {'B', 'b'} && output == old(output) + [c]
      ensures c == 'B' <==> emulator.Agrees() && emulator.Fixes(EAX)
      ensures c == 'B' ==> HoldsMagics(regs)
    {
      LoadMagics();
      ghost var before := regs;
      MmioRead(EAX, Absolute(IOWIN));
      MagicsDetect(emulator, before, regs, device.Window(selected));
      var same := CompareMagics();
      c := Conclude(same, 'B', 'b');
    }

    method Push(r: Reg)
      modifies this`regs, this`stack
      ensures regs.At(ESP) in stack && stack[regs.At(ESP)] == old(regs).At(r)
      ensures (regs.At(ESP) + 4) % 0x1_0000_0000 == old(regs).At(ESP)
      ensures forall x :: x != ESP ==> regs.At(x) == old(regs).At(x)
    {
      var w := regs.At(r);
      regs := regs.Set(ESP, (regs.At(ESP) + 0xFFFF_FFFC) % 0x1_0000_0000);
      stack := stack[regs.At(ESP) := w];
    }

    /** Drops the top of the stack. */
    method Discard()
      modifies this`regs
      ensures regs.At(ESP) == (old(regs).At(ESP) + 4) % 0x1_0000_0000
      ensures forall x :: x != ESP ==> regs.At(x) == old(regs).At(x)
    {
      regs := regs.Set(ESP, (regs.At(ESP) + 4) % 0x1_0000_0000);
    }

    /** Reads the version into a register and compares it with the top of the stack. */
    method ReadMatches(d: Reg) returns (same: bool)
      requires Valid() && d != ESP && regs.At(ESP) in stack
      modifies this`regs, this`carry
      ensures regs.At(ESP) == old(regs).At(ESP)
      ensures emulator.Agrees() && stack[regs.At(ESP)] == device.Window(selected)
              && old(regs).At(d) != device.Window(selected) ==>
                (same <==> emulator.Fixes(d)) && (same ==> forall r :: r != d ==> regs.At(r) == old(regs).At(r))
    {
      ghost var before := regs;
      MmioRead(d, Absolute(IOWIN));
      StackPointerIsOwn(emulator, ESP);
      if emulator.Agrees() && before.At(d) != device.Window(selected) {
        DestinationDetects(emulator, before, regs, d, device.Window(selected));
      }
      same := Compare(d, stack[regs.At(ESP)]);
    }

    method SelectVersion()
      requires Valid()
      modifies this`regs, this`carry, this`selected
      ensures regs.At(ESP) == old(regs).At(ESP)
      ensures emulator.Fixes(EAX) && emulator.Fixes(EDI) ==> selected == 1
      ensures emulator.Agrees() ==> forall r :: r != EAX && r != EDI ==> regs.At(r) == old(regs).At(r)
    {
      Move(EDI, IOREGSEL);
      Move(EAX, 0x01);
      ghost var before := regs;
      MmioWrite(EAX, Based(EDI));
      StackPointerIsOwn(emulator, ESP);
      forall r | emulator.Agrees() ensures regs.At(r) == before.At(r) {
        AgreeingWriteKeeps(emulator, before, regs, r);
      }
    }

    /** Selects the version register and reads it into EAX. */
    method ReadVersion()
      requires Valid()
      modifies this`regs, this`carry, this`selected
      ensures regs.At(ESP) == old(regs).At(ESP)
      ensures emulator.Fixes(EAX) && emulator.Fixes(EDI) ==> selected == 1
      ensures emulator.Agrees() && emulator.Fixes(EAX) ==>
                regs.At(EAX) == device.Window(selected)
                && forall r :: r != EAX && r != EDI ==> regs.At(r) == old(regs).At(r)
    {
      SelectVersion();
      ghost var before := regs;
      MmioRead(EAX, Absolute(IOWIN));
      StackPointerIsOwn(emulator, ESP);
      ghost var w := device.Window(selected);
      forall r | emulator.Agrees() ensures regs.At(r) == if r == emulator.store.To(EAX) then w else before.At(r) {
        AgreeingReadReaches(emulator, before, regs, EAX, w, r);
      }
    }

    /** T3: the same value into four registers. */
    method Destinations() returns (c: char)
      requires Valid()
      modifies this
      ensures Valid() && c in {'C', 'c'} && output == old(output) + [c]
      ensures regs.At(ESP) == old(regs).At(ESP)
      ensures emulator.Fixes(EAX) && emulator.Fixes(EDI) ==> selected == 1
      ensures emulator.Agrees() && emulator.Fixes(EAX) && old(HoldsMagics(regs)) ==>
                (c == 'C' <==> emulator.TransfersData())
    {
      ReadVersion();
      Push(EAX);
      var same := ReadMatches(EBX);
      if same { same := ReadMatches(ECX); }
      if same { same := ReadMatches(EDX); }
      Discard();
      c := Conclude(same, 'C', 'c');
    }

    /** Writes a value to the selector from a register and reads it back into EAX. */
    method EchoMatches(s: Reg, w: Word) returns (same: bool)
      requires Valid() && s != EAX
      modifies this`regs, this`carry, this`selected
      ensures emulator.load.To(s) == s ==> selected == w
      ensures emulator.Agrees() && emulator.Fixes(EAX) ==>
                (same <==> emulator.load.To(s) == s || old(regs).At(emulator.load.To(s)) == w)
                && regs.At(s) == w && (same ==> regs.At(EAX) == w)
                && forall r :: r != EAX && r != s ==> regs.At(r) == old(regs).At(r)
    {
      Move(s, w);
      ghost var before := regs;
      MmioWrite(s, Absolute(IOREGSEL));
      ghost var between := regs;
      MmioRead(EAX, Absolute(IOREGSEL));
      if emulator.Agrees() && emulator.Fixes(EAX) {
        OnlyEaxChanges(emulator, before, between, regs, selected);
      }
      same := Compare(EAX, w);
    }

    /** T4: two different values, written from two registers. */
    method Sources() returns (c: char)
      requires Valid()
      modifies this
      ensures Valid() && c in {'D', 'd'} && output == old(output) + [c]
      ensures emulator.TransfersData() ==> c == 'D' && selected == 0x0A
      ensures emulator.Agrees() && emulator.Fixes(EAX)
              && (forall r :: r != EAX && r != EBX ==> old(regs).At(r) != 0x05)
              && (forall r :: r != EAX && r != ECX ==> old(regs).At(r) != 0x0A) ==>
                (c == 'D' <==> emulator.Fixes(EBX) && emulator.Fixes(ECX))
    {
      var same := EchoMatches(EBX, 0x05);
      if same { same := EchoMatches(ECX, 0x0A); }
      c := Conclude(same, 'D', 'd');
    }

    /** T5: the carry flag across a read. */
    method Flags() returns (c: char)
      requires Valid()
      modifies this
      ensures Valid() && c in {'E', 'e'} && output == old(output) + [c]
      ensures c == 'E' <==> emulator.whenSet
      ensures emulator.Fixes(EAX) && emulator.Fixes(EDI) ==> selected == 1
    {
      SelectVersion();
      carry := true;
      Move(EAX, 1);
      MmioRead(EAX, Absolute(IOWIN));
      c := Conclude(carry, 'E', 'e');
    }

    method EmitText(text: string)
      requires forall c :: c in text ==> c < 256 as char
      modifies this`regs, this`carry, this`output
      ensures output == old(output) + text
    {
      for i := 0 to |text|
        invariant output == old(output) + text[..i]
      {
        assert text[i] in text;
        Emit(text[i]);
      }
    }

    /**
     * The whole payload: the letters of T2 and T3 are upper case exactly when the emulator transfers the data registers
     * faithfully, and T4 then follows; the expected line appears exactly when also the carry flag survives and the
     * first read is plausible.
     */
    method Run() returns (a: char, b: char, c: char, d: char, e: char)
      requires Valid()
      modifies this
      ensures output == old(output) + [a, b, c, d, e] + " MMIO_OK\r\n"
      ensures var w := FirstRead(emulator, device, old(regs), old(selected));
        emulator.Agrees() && emulator.Fixes(EAX) ==> (a == 'A' <==> w % 256 != 0 && w / 0x1_0000 % 256 != 0)
      ensures b == 'B' <==> emulator.Agrees() && emulator.Fixes(EAX)
      ensures b == 'B' && c == 'C' <==> emulator.TransfersData()
      ensures b == 'B' && c == 'C' && d == 'D' <==> emulator.TransfersData()
      ensures e == 'E' <==> emulator.whenSet
      ensures emulator.Fixes(EAX) && emulator.Fixes(EDI) ==> selected == 1
      ensures [a, b, c, d, e] == "ABCDE"
         <==> emulator.TransfersData() && emulator.whenSet
              && IsPlausible(FirstRead(emulator, device, old(regs), old(selected)))
    {
      a := BasicAccess();
      b := Preservation();
      c := Destinations();
      d := Sources();
      e := Flags();
      EmitText(" MMIO_OK\r\n");
    }
  }
}
