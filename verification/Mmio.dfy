/** mmio.c and virtual-device.c: a guest's trapped load or store, carried out on its VM's emulated device. */
module Mmio {
  import opened Wrappers
  import opened Bits
  import opened Descriptors
  import opened Cpu
  import opened Regions
  import opened Vuart
  import opened Vm

  const ISS_WNR := 0x40
  const ISS_S1PTW := 0x80
  const ISS_FNV := 0x400
  const ISS_SSE := 0x20_0000
  const ISS_ISV := 0x100_0000
  const EC_PREFETCH_ABORT_LOWER := 0x20

  // ----- What the syndrome says -----

  /** HvStage2FaultInfo, without the fields that are only logged. */
  datatype Fault = Fault(iss: nat, ipa: nat, isWrite: bool, isInstruction: bool, offsetValid: bool)

  /** decode_stage2_fault */
  function DecodeFault(f: Frame): Fault {
    var iss := HsrIss(f.hsr);
    var isInstruction := HsrEc(f.hsr) == EC_PREFETCH_ABORT_LOWER;
    var offsetValid := !isInstruction && And(iss, ISS_FNV) == 0;
    var page := Shl(And(f.hpfar, 0xffff_fff0), 8);
    var ipa := if offsetValid then Or(page, And(f.hdfar, PAGE_SIZE - 1)) else page;
    Fault(iss, ipa, !isInstruction && And(iss, ISS_WNR) != 0, isInstruction, offsetValid)
  }

  /** HPFAR holds the page number of a 40-bit IPA above its low four bits. Decoding recovers any such IPA,
      down to the byte if HDFAR is valid and to the page if not. */
  lemma DecodeRecoversIpa(f: Frame, page: nat, low: nat)
    requires page < 0x1000_0000 && low < 16 && f.hpfar == 16 * page + low
    ensures DecodeFault(f).ipa == page * PAGE_SIZE + if DecodeFault(f).offsetValid then f.hdfar % PAGE_SIZE else 0
  {
    hide And, Or, Shl, Shr, Low;
    Masks();
    AndField(f.hpfar, 4, 28);
    Shl4(page);
    assert Ones(4) == 15;
    ShrOfSum(page, low, 4);
    LowFits(page, 28);
    Shl12(16 * page);
    Shl12(page);
    AndOnes(f.hdfar, 12);
    Low12(f.hdfar);
    OrDisjoint(page, f.hdfar % PAGE_SIZE, 12);
  }

  /** So the region an abort is charged to does not depend on HDFAR being valid. */
  lemma RegionNeedsNoOffset(rs: seq<Region>, f: Frame, page: nat, low: nat)
    requires TableOk(rs) && page < 0x1000_0000 && low < 16 && f.hpfar == 16 * page + low
    ensures Find(rs, DecodeFault(f).ipa) == Find(rs, page * PAGE_SIZE)
  {
    hide DecodeFault, TableOk, Find;
    DecodeRecoversIpa(f, page, low);
    FindByPage(rs, DecodeFault(f).ipa);
  }

  /** mmio_access_size */
  function AccessSize(iss: nat): nat {
    var sas := And(Shr(iss, 22), 3);
    if sas == 0 then 1 else if sas == 1 then 2 else if sas == 2 then 4 else 0
  }

  /** mmio_access_reg */
  function AccessReg(iss: nat): nat {
    And(Shr(iss, 16), 0x1f)
  }

  /** mmio_decode_access: a data access with valid offset and syndrome, not made for a stage 1 walk, of 1,
      2 or 4 bytes. */
  predicate Decodes(fault: Fault) {
    !fault.isInstruction && fault.offsetValid && And(fault.iss, ISS_ISV) != 0 && And(fault.iss, ISS_S1PTW) == 0 &&
    AccessSize(fault.iss) != 0
  }

  // ----- Guest registers -----

  predicate GuestReg(reg: nat) {
    reg < 13 || reg == 14
  }

  /** mmio_read_guest_reg */
  function ReadReg(f: Frame, reg: nat): Word
    requires GuestReg(reg)
  {
    if reg < 13 then f.r[reg] else f.lr
  }

  /** mmio_write_guest_reg */
  function WriteReg(f: Frame, reg: nat, value: Word): Frame
    requires GuestReg(reg)
  {
    if reg < 13 then f.(r := f.r[reg := value]) else f.(lr := value)
  }

  /** mmio_mask_value */
  function MaskValue(value: Word, size: nat, signExtend: bool): Word {
    if size == 1 then
      var v := And32(value, 0xff);
      if signExtend && And(v, 0x80) != 0 then Or32(v, 0xffff_ff00) else v
    else if size == 2 then
      var v := And32(value, 0xffff);
      if signExtend && And(v, 0x8000) != 0 then Or32(v, 0xffff_0000) else v
    else if size == 4 then value
    else 0
  }

  /** The value of the low n bits, as an unsigned number or in two's complement. */
  function Extended(value: Word, limit: nat, signExtend: bool): nat
    requires limit in {0x100, 0x1_0000}
  {
    if signExtend && value % limit >= limit / 2 then value % limit + (UINT32_LIMIT - limit) else value % limit
  }

  lemma BitAtTop(v: nat)
    ensures v < 0x100 ==> (BitAt(v, 7) <==> v >= 0x80)
    ensures v < 0x1_0000 ==> (BitAt(v, 15) <==> v >= 0x8000)
  {
    assert BitAt(v, 7) == BitAt(v / 2 / 2 / 2 / 2, 3) == (v / 2 / 2 / 2 / 2 / 2 / 2 / 2 % 2 == 1);
    assert BitAt(v, 15) == BitAt(v / 2 / 2 / 2 / 2 / 2 / 2 / 2 / 2, 7);
    var w := v / 2 / 2 / 2 / 2 / 2 / 2 / 2 / 2;
    assert BitAt(w, 7) == BitAt(w / 2 / 2 / 2 / 2, 3) == (w / 2 / 2 / 2 / 2 / 2 / 2 / 2 % 2 == 1);
  }

  /** What masking means: the low 8, 16 or 32 bits, sign-extended on request. */
  lemma MaskExtends(value: Word, signExtend: bool)
    ensures MaskValue(value, 1, signExtend) == Extended(value, 0x100, signExtend)
    ensures MaskValue(value, 2, signExtend) == Extended(value, 0x1_0000, signExtend)
    ensures MaskValue(value, 4, signExtend) == value
  {
    hide And, Or, Shl, Low, BitAt;
    ByteMasks();
    TopBits();
    Low8(value);
    Low16(value);
    AndOnes(value, 8);
    AndOnes(value, 16);
    var b, h := value % 0x100, value % 0x1_0000;
    AndBit(b, 7);
    AndBit(h, 15);
    BitAtTop(b);
    BitAtTop(h);
    OrHigh(b, h);
  }

  lemma TopBits()
    ensures Shl(1, 7) == 0x80 && Shl(1, 15) == 0x8000
  {
    hide Shl;
    Shl12(1);
    ShlAdd(1, 7, 8);
    Shl7(1);
    Shl7(0x100);
  }

  lemma Shl7(x: nat)
    ensures Shl(x, 7) == 0x80 * x
  {
    assert Shl(x, 3) == 8 * x;
  }

  lemma OrHigh(b: nat, h: nat)
    requires b < 0x100 && h < 0x1_0000
    ensures Or(b, 0xffff_ff00) == b + 0xffff_ff00 && Or(h, 0xffff_0000) == h + 0xffff_0000
  {
    hide Or, Shl;
    ByteMasks();
    Shl12(0xff_ffff);
    OrDisjoint(0xff_ffff, b, 8);
    OrCommutes(b, 0xffff_ff00);
    ShlAdd(0xffff, 8, 8);
    Shl12(0xffff);
    Shl12(0xff_ff00);
    OrDisjoint(0xffff, h, 16);
    OrCommutes(h, 0xffff_0000);
  }

  // ----- The syndrome in arithmetic -----

  lemma FlagMasks()
    ensures Shl(1, 6) == ISS_WNR && Shl(1, 7) == ISS_S1PTW && Shl(1, 10) == ISS_FNV
    ensures Shl(1, 21) == ISS_SSE && Shl(1, 24) == ISS_ISV
  {
    assert Shl(1, 6) == 0x40;
    assert Shl(1, 7) == 0x80;
    assert Shl(1, 10) == 0x400;
    hide Shl;
    Shl12(1);
    ShlAdd(1, 12, 12);
    Shl12(0x1000);
    ShlAdd(1, 12, 9);
    Shl9(1);
    Shl12(0x200);
  }

  /** Right shifts by the positions of the syndrome's fields. */
  lemma ShrFields(x: nat)
    ensures Shr(x, 6) == x / 0x40 && Shr(x, 7) == x / 0x80 && Shr(x, 10) == x / 0x400 && Shr(x, 16) == x / 0x1_0000
    ensures Shr(x, 21) == x / 0x20_0000 && Shr(x, 22) == x / 0x40_0000 && Shr(x, 24) == x / 0x100_0000
  {
    hide Shr;
    ShrAdd(x, 3, 3);
    Shr3(x);
    Shr3(x / 8);
    ShrAdd(x, 6, 1);
    ShrOne(x / 0x40);
    ShrAdd(x, 9, 1);
    Shr9(x);
    ShrOne(x / 0x200);
    ShrAdd(x, 8, 8);
    Shr8(x);
    Shr8(x / 0x100);
    ShrHigh(x);
  }

  lemma ShrHigh(x: nat)
    ensures Shr(x, 21) == x / 0x20_0000 && Shr(x, 22) == x / 0x40_0000 && Shr(x, 24) == x / 0x100_0000
  {
    hide Shr;
    ShrPage(x);
    ShrAdd(x, 21, 1);
    ShrOne(x / 0x20_0000);
    ShrAdd(x, 12, 12);
    ShrPage(x / 0x1000);
  }

  lemma LowFive(x: nat)
    ensures And(x, 0x1f) == x % 0x20
  {
    assert Ones(5) == 0x1f by { assert Ones(4) == 0xf; }
    hide And, Low, Ones, Shl;
    AndOnes(x, 5);
    Split(x, 5);
    assert Shr(x, 5) == x / 2 / 2 / 2 / 2 / 2;
    ShlFive(Shr(x, 5));
  }

  lemma ShlFive(x: nat)
    ensures Shl(x, 5) == 0x20 * x
  {
    assert Shl(x, 2) == 4 * x;
  }

  /** The flags of a data abort's syndrome: valid (24), sign-extend (21), HDFAR not valid (10), table walk (7) and
      write (6). */
  lemma IssFlags(iss: nat)
    ensures And(iss, ISS_ISV) != 0 <==> iss / 0x100_0000 % 2 == 1
    ensures And(iss, ISS_SSE) != 0 <==> iss / 0x20_0000 % 2 == 1
    ensures And(iss, ISS_FNV) != 0 <==> iss / 0x400 % 2 == 1
    ensures And(iss, ISS_S1PTW) != 0 <==> iss / 0x80 % 2 == 1
    ensures And(iss, ISS_WNR) != 0 <==> iss / 0x40 % 2 == 1
  {
    hide And, Shr, Shl, BitAt;
    FlagMasks();
    ShrFields(iss);
    forall i | i in {6, 7, 10, 21, 24}
      ensures And(iss, Shl(1, i)) != 0 <==> Shr(iss, i) % 2 == 1
    {
      AndBit(iss, i);
      BitIsShr(iss, i);
    }
  }

  /** Its register (20:16) and size (23:22) fields. */
  lemma IssFields(iss: nat)
    ensures AccessReg(iss) == iss / 0x1_0000 % 0x20
    ensures AccessSize(iss) ==
      var sas := iss / 0x40_0000 % 4; if sas == 0 then 1 else if sas == 1 then 2 else if sas == 2 then 4 else 0
  {
    hide And, Shr, Low;
    ShrFields(iss);
    LowFive(iss / 0x1_0000);
    Masks();
    AndOnes(iss / 0x40_0000, 2);
    Low2(iss / 0x40_0000);
  }

  /** The masks of the alignment check. */
  lemma AlignmentMask(offset: nat, size: nat)
    requires size in {1, 2, 4}
    ensures And(offset, size - 1) == offset % size
  {
    Masks();
    if size == 1 {
      assert And(offset, 0) == 0;
    } else if size == 2 {
      AndOnes(offset, 1);
      Low1(offset);
    } else {
      AndOnes(offset, 2);
      Low2(offset);
    }
  }

  // ----- The access -----

  /** A request that gets past every check to the device. */
  datatype Request = Request(offset: nat, size: nat, reg: nat, isWrite: bool, signExtend: bool)

  /** Where in its region an access falls, as a uint32_t. */
  function Offset(region: Region, fault: Fault): nat
    requires Contains(region, fault.ipa)
  {
    (fault.ipa - region.ipaBase) % UINT32_LIMIT
  }

  /** What hv_mmio_handle_fault and hv_virtual_device_access check, in their order. */
  function RequestOf(rs: seq<Region>, fault: Fault): (q: Option<Request>)
    ensures q.Some? && q.value.isWrite ==> GuestReg(q.value.reg) && Writable(q.value.offset)
  {
    var reg, size, found := AccessReg(fault.iss), AccessSize(fault.iss), Find(rs, fault.ipa);
    if !Decodes(fault) || found.None? || !rs[found.value].kind.Mmio? then None
    else
      var region := rs[found.value];
      var offset := Offset(region, fault);
      if fault.isWrite && !GuestReg(reg) then None
      else if And(offset, size - 1) != 0 || region.device != MmioDevice.Vuart then None
      else if fault.isWrite && !Writable(offset) then None
      else if !fault.isWrite && !Readable(offset) then None
      else Some(Request(offset, size, reg, fault.isWrite, And(fault.iss, ISS_SSE) != 0))
  }

  datatype Outcome = Outcome(ok: bool, frame: Frame, uart: Uart, line: Line)

  /** The device's part, and the guest register's. */
  function Perform(f: Frame, u: Uart, line: Line, q: Request): Outcome
    requires q.isWrite ==> GuestReg(q.reg)
  {
    if q.isWrite then
      var value := MaskValue(ReadReg(f, q.reg), q.size, false);
      Outcome(true, f, Written(u, q.offset, value), LineAfterWrite(line, q.offset, value))
    else if GuestReg(q.reg) then
      var value := MaskValue(ReadValue(u, line, q.offset), q.size, q.signExtend);
      Outcome(true, WriteReg(f, q.reg, value), u, LineAfterRead(line, q.offset))
    else Outcome(false, f, u, LineAfterRead(line, q.offset))
  }

  /** hv_mmio_handle_fault, for the VM with region table rs whose UART is u. */
  function HandleFault(f: Frame, u: Uart, line: Line, rs: seq<Region>, fault: Fault): Outcome {
    match RequestOf(rs, fault)
    case None => Outcome(false, f, u, line)
    case Some(q) => Perform(f, u, line, q)
  }

  /** Where a frame's fault addresses point: the page HPFAR names, and the offset in it if HDFAR is valid. */
  function FaultIpa(f: Frame): nat {
    f.hpfar / 0x10 * PAGE_SIZE +
    if f.hsr / 0x400_0000 != 0x20 && f.hsr % 0x200_0000 / 0x400 % 2 == 0 then f.hdfar % PAGE_SIZE else 0
  }

  /** decode_stage2_fault in arithmetic on the fault registers. */
  lemma DecodeIs(f: Frame)
    ensures var (ec, iss) := (f.hsr / 0x400_0000, f.hsr % 0x200_0000);
      DecodeFault(f) ==
        Fault(iss, FaultIpa(f), ec != 0x20 && iss / 0x40 % 2 == 1, ec == 0x20, ec != 0x20 && iss / 0x400 % 2 == 0)
  {
    hide And, Or, Shl, HsrEc, HsrIss;
    HsrDigits(f.hsr);
    IssFlags(f.hsr % 0x200_0000);
    DecodeRecoversIpa(f, f.hpfar / 0x10, f.hpfar % 0x10);
  }

  /** The bytes an access moves, from the size field of its syndrome. */
  function SizeOf(iss: nat): nat {
    var sas := iss / 0x40_0000 % 4;
    if sas == 0 then 1 else if sas == 1 then 2 else 4
  }

  /** Whether an access gets as far as the device, in arithmetic on the fault registers: a load or store with a valid
      syndrome and address, not made for a table walk, of 1, 2 or 4 bytes, aligned, at an offset of an emulated UART
      that it may use; a store must also come from r0-r12 or r14. */
  predicate Reaches(rs: seq<Region>, f: Frame) {
    var (iss, found) := (f.hsr % 0x200_0000, Find(rs, FaultIpa(f)));
    f.hsr / 0x400_0000 != 0x20 && iss / 0x400 % 2 == 0 &&
    iss / 0x100_0000 % 2 == 1 && iss / 0x80 % 2 == 0 && iss / 0x40_0000 % 4 != 3 &&
    found.Some? && rs[found.value].kind.Mmio? && rs[found.value].device == MmioDevice.Vuart &&
    var (offset, reg) := ((FaultIpa(f) - rs[found.value].ipaBase) % UINT32_LIMIT, iss / 0x1_0000 % 0x20);
    offset % SizeOf(iss) == 0 &&
    if iss / 0x40 % 2 == 1 then (reg < 13 || reg == 14) && (Holding(offset) || offset == 0x40)
    else Holding(offset) || offset in {0x40, 0x54, 0x58}
  }

  /** The checks of hv_mmio_handle_fault and hv_virtual_device_access let exactly those accesses through, with the
      register, size and direction their syndrome gives. */
  lemma RequestIs(rs: seq<Region>, f: Frame)
    ensures var (q, iss) := (RequestOf(rs, DecodeFault(f)), f.hsr % 0x200_0000);
      (q.Some? <==> Reaches(rs, f)) &&
      (q.Some? ==>
        q.value == Request((FaultIpa(f) - rs[Find(rs, FaultIpa(f)).value].ipaBase) % UINT32_LIMIT, SizeOf(iss),
                           iss / 0x1_0000 % 0x20, iss / 0x40 % 2 == 1, iss / 0x20_0000 % 2 == 1))
  {
    hide And, AccessSize, AccessReg, DecodeFault, Writable, Readable, Holding, FaultIpa, FindFrom;
    var (fault, iss) := (DecodeFault(f), f.hsr % 0x200_0000);
    DecodeIs(f);
    IssFlags(iss);
    IssFields(iss);
    var found := Find(rs, fault.ipa);
    if found.Some? {
      var offset := Offset(rs[found.value], fault);
      OffsetsAre(offset);
      AlignmentMask(offset, SizeOf(iss));
    }
  }

  /** What an access sends to the physical UART: the low byte of the register that a store to the data register
      names. */
  function Sent(rs: seq<Region>, f: Frame): (bytes: seq<Word>)
    ensures |bytes| <= 1
  {
    var (iss, found) := (f.hsr % 0x200_0000, Find(rs, FaultIpa(f)));
    var reg := iss / 0x1_0000 % 0x20;
    if Reaches(rs, f) && iss / 0x40 % 2 == 1 && (FaultIpa(f) - rs[found.value].ipaBase) % UINT32_LIMIT == 0x40 then
      [(if reg < 13 then f.r[reg] else f.lr) % 0x100]
    else []
  }

  lemma LowByteOfMasked(value: Word, size: nat)
    requires size in {1, 2, 4}
    ensures MaskValue(value, size, false) % 0x100 == value % 0x100
  {
    hide MaskValue;
    MaskExtends(value, false);
    LowOfLow(value);
  }

  lemma LowOfLow(x: nat)
    ensures x % 0x1_0000 % 0x100 == x % 0x100
  {
    assert x == 0x100 * (x / 0x100) + x % 0x100;
  }

  lemma EmulationSends(f: Frame, u: Uart, line: Line, rs: seq<Region>)
    ensures HandleFault(f, u, line, rs, DecodeFault(f)).line.tx == line.tx + Sent(rs, f)
  {
    hide MaskValue, ReadValue, Written, LineAfterWrite, Find, RequestOf, DecodeFault, Reaches, FaultIpa;
    RequestIs(rs, f);
    var q := RequestOf(rs, DecodeFault(f));
    assert line.tx + [] == line.tx;
    if q.Some? && q.value.isWrite {
      LowByteOfMasked(ReadReg(f, q.value.reg), q.value.size);
      WriteSends(line, q.value.offset, MaskValue(ReadReg(f, q.value.reg), q.value.size, false));
    }
  }

  /** An unhandled access leaves the guest's registers, its device and what was sent alone. */
  lemma UnhandledChangesNothing(f: Frame, u: Uart, line: Line, rs: seq<Region>, fault: Fault)
    ensures var o := HandleFault(f, u, line, rs, fault);
      !o.ok ==> o.frame == f && o.uart == u && o.line.tx == line.tx
  {
    hide RequestOf;
  }

  /** A load of the data register that passes every check but names no register the guest has: r13, r15 or a
      higher number. */
  predicate LoadsNowhere(rs: seq<Region>, fault: Fault) {
    var q := RequestOf(rs, fault);
    q.Some? && !q.value.isWrite && !GuestReg(q.value.reg) && q.value.offset == MU_IO
  }

  /** Whether an access takes a received byte from the line and gives it to no guest. */
  predicate LosesByte(line: Line, o: Outcome, f: Frame) {
    o.line.rx != line.rx && o.frame == f && !o.ok
  }

  /** A received byte is lost exactly for such a load while a byte is waiting. */
  lemma ByteLostIff(f: Frame, u: Uart, line: Line, rs: seq<Region>, fault: Fault)
    ensures LosesByte(line, HandleFault(f, u, line, rs, fault), f) <==> LoadsNowhere(rs, fault) && line.rx != []
  {
    hide RequestOf;
  }

  // ----- A load that loses its byte -----

  const UART_AT := 0x1000_0000

  /** A data abort from below with a valid syndrome, for a 4-byte load into r13. */
  const LOAD_INTO_R13: Word := 0x918d_0000

  /** Any guest can lose a byte so: it loads the data register of its emulated UART into r13. */
  lemma LoadIntoR13LosesByte(f: Frame, u: Uart, line: Line, region: Region)
    requires f.hsr == LOAD_INTO_R13 && f.hpfar == UART_AT / 0x100 && f.hdfar == MU_IO && line.rx != []
    requires region == Region(UART_AT, PAGE_SIZE, 0, 0, RegionType.Mmio, MmioDevice.Vuart)
    ensures LosesByte(line, HandleFault(f, u, line, [region], DecodeFault(f)), f)
  {
    hide And, Shr, Shl, Or, AccessReg, AccessSize, HsrEc, HsrIss;
    HsrFields(LOAD_INTO_R13, 0x24, 0, 0x18d_0000);
    IssFlags(0x18d_0000);
    IssFields(0x18d_0000);
    DecodeRecoversIpa(f, UART_AT / PAGE_SIZE, 0);
    Masks();
    AndOnes(MU_IO, 2);
    Low2(MU_IO);
    ByteLostIff(f, u, line, [region], DecodeFault(f));
  }

  /** A handled access changes at most one guest register, and never the return state. */
  lemma HandledChangesOneRegister(f: Frame, u: Uart, line: Line, rs: seq<Region>, fault: Fault)
    ensures var o := HandleFault(f, u, line, rs, fault);
      o.ok ==> o.frame.(r := f.r, lr := f.lr) == f
    ensures var o := HandleFault(f, u, line, rs, fault);
      o.ok && fault.isWrite ==> o.frame == f
    ensures var o := HandleFault(f, u, line, rs, fault);
      o.ok && !fault.isWrite ==> o.uart == u && o.line.tx == line.tx
    ensures var o := HandleFault(f, u, line, rs, fault);
      o.ok ==> forall reg :: GuestReg(reg) && reg != AccessReg(fault.iss) ==> ReadReg(o.frame, reg) == ReadReg(f, reg)
  {
    hide And, MaskValue, Written, ReadValue;
  }

  // ----- Interleavings -----

  /** One trapped access of one VM, with the bytes that reached the physical UART before it. */
  datatype Access = Access(vm: nat, frame: Frame, regions: seq<Region>, fault: Fault, received: seq<Word>)
  {
    function Request(): (q: Option<Request>)
      ensures q.Some? && q.value.isWrite ==> GuestReg(q.value.reg)
    {
      RequestOf(regions, fault)
    }

    predicate StoresAt(offset: nat) {
      Request().Some? && Request().value.isWrite && Request().value.offset == offset
    }

    /** The stored value, cut to the store's width. */
    function Stored(): Word
      requires Request().Some? && Request().value.isWrite
    {
      var q := Request().value;
      MaskValue(if q.reg < 13 then frame.r[q.reg] else frame.lr, q.size, false)
    }
  }

  /** The value vm last stored at offset, or the initial zero. */
  function LastStored(trace: seq<Access>, vm: nat, offset: nat): Word {
    if trace == [] then 0
    else
      var a := trace[|trace| - 1];
      if a.vm == vm && a.StoresAt(offset) then a.Stored() else LastStored(trace[..|trace| - 1], vm, offset)
  }

  datatype Devices = Devices(uarts: seq<Uart>, line: Line)

  function Serve(d: Devices, a: Access): (Devices, Outcome)
    requires a.vm < |d.uarts|
  {
    var o := HandleFault(a.frame, d.uarts[a.vm], d.line.(rx := d.line.rx + a.received), a.regions, a.fault);
    (Devices(d.uarts[a.vm := o.uart], o.line), o)
  }

  predicate OfVms(trace: seq<Access>, vms: nat) {
    forall i :: 0 <= i < |trace| ==> trace[i].vm < vms
  }

  /** Every VM's devices after a trace that interleaves all VMs' accesses, from all-zero registers. */
  function RunAll(vms: nat, line: Line, trace: seq<Access>): (d: Devices)
    requires OfVms(trace, vms)
    ensures |d.uarts| == vms
  {
    if trace == [] then Devices(seq(vms, _ => UART_ZERO), line)
    else Serve(RunAll(vms, line, trace[..|trace| - 1]), trace[|trace| - 1]).0
  }

  lemma StepField(d: Devices, a: Access, offset: nat)
    requires a.vm < |d.uarts|
    ensures Field(Serve(d, a).0.uarts[a.vm], offset) ==
      if !Holding(offset) || !a.StoresAt(offset) then Field(d.uarts[a.vm], offset)
      else if offset == 0x04 then a.Stored() % 2
      else a.Stored()
  {
    hide MaskValue, Field, Written, Holding, RequestOf;
    if a.Request().Some? && a.Request().value.isWrite {
      FieldAfterWrite(d.uarts[a.vm], a.Request().value.offset, a.Stored(), offset);
    }
  }

  /** A register holds what its own VM last stored there, whatever the other VMs do; AUX_ENABLES the low bit of it,
      and the modem status, which cannot be stored, nothing. */
  lemma {:induction false} RegisterIsLastStore(vms: nat, line: Line, trace: seq<Access>, vm: nat, offset: nat)
    requires OfVms(trace, vms) && vm < vms
    ensures Field(RunAll(vms, line, trace).uarts[vm], offset) ==
      if !Holding(offset) then 0
      else if offset == 0x04 then LastStored(trace, vm, offset) % 2
      else LastStored(trace, vm, offset)
    decreases |trace|
  {
    hide HandleFault, Holding, Access.StoresAt, Access.Stored, Access.Request, GuestReg;
    if trace == [] {
      assert Field(UART_ZERO, offset) == 0;
    } else {
      var before, a := trace[..|trace| - 1], trace[|trace| - 1];
      RegisterIsLastStore(vms, line, before, vm, offset);
      StepField(RunAll(vms, line, before), a, offset);
    }
  }

  /** What VM vm reads at an offset after trace, with `rx` received: from the data register the oldest byte, from the
      status registers what is always so, and elsewhere what it last stored there itself. */
  function Seen(trace: seq<Access>, vm: nat, rx: seq<Word>, offset: nat): nat {
    var own := LastStored(trace, vm, offset);
    if offset == 0x40 then (if rx == [] then 0 else rx[0])
    else if offset == 0x54 then (if rx == [] then 0x60 else 0x61)
    else if offset == 0x64 then (if own / 2 % 2 == 1 then own else own + 2)
    else if offset == 0x04 then own % 2
    else if Holding(offset) then own
    else 0
  }

  lemma ReadsSeen(vms: nat, line: Line, trace: seq<Access>, vm: nat, l: Line, offset: nat)
    requires OfVms(trace, vms) && vm < vms
    ensures ReadValue(RunAll(vms, line, trace).uarts[vm], l, offset) == Seen(trace, vm, l.rx, offset)
  {
    hide RunAll, LastStored;
    var u := RunAll(vms, line, trace).uarts[vm];
    ReadIs(u, l, offset);
    RegisterIsLastStore(vms, line, trace, vm, offset);
    assert Field(u, 0x64) == u.stat;
  }

  /** Non-interference: at the end of any interleaving, a load gives its VM what that VM itself last stored, or the
      oldest byte received, cut or sign-extended to the width of the load; it changes the loaded register alone, and
      takes one byte from the line exactly if it reads the data register. */
  lemma LoadSeesOwnStore(vms: nat, line: Line, trace: seq<Access>, a: Access, q: Request)
    requires OfVms(trace, vms) && a.vm < vms && a.Request() == Some(q) && !q.isWrite
    ensures var (d, (d', o)) := (RunAll(vms, line, trace), Serve(RunAll(vms, line, trace), a));
      var rx := d.line.rx + a.received;
      var seen := Seen(trace, a.vm, rx, q.offset);
      o.ok == (q.reg < 13 || q.reg == 14) && d'.uarts == d.uarts && d'.line.tx == d.line.tx &&
      d'.line.rx == (if q.offset == 0x40 && rx != [] then rx[1..] else rx) && seen <= 0xffff_ffff &&
      o.frame ==
        if q.reg < 13 then a.frame.(r := a.frame.r[q.reg := MaskValue(seen, q.size, q.signExtend)])
        else if q.reg == 14 then a.frame.(lr := MaskValue(seen, q.size, q.signExtend))
        else a.frame
  {
    hide MaskValue, RequestOf, RunAll, Seen, ReadValue, LineAfterRead;
    var d := RunAll(vms, line, trace);
    var l := d.line.(rx := d.line.rx + a.received);
    ReadsSeen(vms, line, trace, a.vm, l, q.offset);
    ReadIs(d.uarts[a.vm], l, q.offset);
    assert d.uarts[a.vm := d.uarts[a.vm]] == d.uarts;
  }

  // ----- On the VM's device and the guest's frame -----

  /** hv_virtual_device_access */
  method DeviceAccess(vm: HvVm, region: Region, fault: Fault, size: nat, value: Word, uarts: VirtualUarts)
    returns (handled: bool, readValue: Word)
    requires Contains(region, fault.ipa) && SizeOk(size)
    modifies uarts.vuarts, uarts.console
    ensures handled == (vm.id < uarts.vuarts.Length && And(Offset(region, fault), size - 1) == 0 &&
                        region.device == MmioDevice.Vuart &&
                        if fault.isWrite then Writable(Offset(region, fault)) else Readable(Offset(region, fault)))
    ensures !handled ==> uarts.vuarts[..] == old(uarts.vuarts[..]) && uarts.console.line == old(uarts.console.line)
    ensures handled && fault.isWrite ==>
      uarts.vuarts[..] ==
        old(uarts.vuarts[..])[vm.id := Written(old(uarts.vuarts[vm.id]), Offset(region, fault), value)]
    ensures handled && fault.isWrite ==>
      uarts.console.line == LineAfterWrite(old(uarts.console.line), Offset(region, fault), value)
    ensures handled && !fault.isWrite ==> uarts.vuarts[..] == old(uarts.vuarts[..])
    ensures handled && !fault.isWrite ==>
      readValue == ReadValue(old(uarts.vuarts[vm.id]), old(uarts.console.line), Offset(region, fault))
    ensures handled && !fault.isWrite ==>
      uarts.console.line == LineAfterRead(old(uarts.console.line), Offset(region, fault))
  {
    readValue := 0;
    if vm.id >= uarts.vuarts.Length {
      return false, readValue;
    }
    var offset := Offset(region, fault);
    if And(offset, size - 1) != 0 || region.device != MmioDevice.Vuart {
      return false, readValue;
    }
    if fault.isWrite {
      handled := uarts.Write(vm.id, offset, value, size);
    } else {
      handled, readValue := uarts.Read(vm.id, offset, size);
    }
  }

  /** hv_mmio_handle_fault */
  method HandleMmioFault(cpu: Cpu, vm: HvVm, fault: Fault, uarts: VirtualUarts) returns (ok: bool)
    requires vm.id < uarts.vuarts.Length
    modifies cpu`frame, uarts.vuarts, uarts.console
    ensures var o := HandleFault(old(cpu.frame), old(uarts.vuarts[vm.id]), old(uarts.console.line), vm.regions, fault);
      ok == o.ok && cpu.frame == o.frame && uarts.console.line == o.line &&
      uarts.vuarts[..] == old(uarts.vuarts[..])[vm.id := o.uart]
  {
    hide MaskValue, Written, ReadValue, And, Shr, LineAfterRead, LineAfterWrite, Writable, Readable;
    if !Decodes(fault) {
      return false;
    }
    var size, reg := AccessSize(fault.iss), AccessReg(fault.iss);
    var found := vm.FindRegion(fault.ipa);
    if found.None? || !vm.regions[found.value].kind.Mmio? {
      return false;
    }
    var value: Word := 0;
    if fault.isWrite {
      if !GuestReg(reg) {
        return false;
      }
      value := MaskValue(ReadReg(cpu.frame, reg), size, false);
    }
    var handled, readValue := DeviceAccess(vm, vm.regions[found.value], fault, size, value, uarts);
    if !handled {
      return false;
    }
    if !fault.isWrite {
      value := MaskValue(readValue, size, And(fault.iss, ISS_SSE) != 0);
      if !GuestReg(reg) {
        return false;
      }
      cpu.frame := WriteReg(cpu.frame, reg, value);
    }
    return true;
  }
}
