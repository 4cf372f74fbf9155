/** The live registers the hypervisor reads and writes, and the exception frame on its stack. */
module Cpu {
  import opened Bits
  import opened Tlb

  const HCR_IMO := 0x10
  const HCR_VI := 0x80
  const HCR_TWI := 0x2000

  type Regs = r: seq<Word> | |r| == 13 witness [0, 0, 0, 0, 0, 0, 0, 0, 0, 0, 0, 0, 0]

  /** HypExceptState: r0-r12, lr, the syndrome, the return state and the fault addresses. */
  datatype Frame = Frame(r: Regs, lr: Word, hsr: Word, elr: Word, spsr: Word,
                         hdfar: Word, hifar: Word, hpfar: Word, exceptionType: nat)
  {
    function WithReg0(value: Word): Frame {
      this.(r := r[0 := value])
    }

    /** elr_hyp moved past the trapped instruction: 4 bytes, or 2 in Thumb state. */
    function Advanced(): Frame {
      this.(elr := (elr + if HsrIl(hsr) != 0 then 4 else 2) % 0x1_0000_0000)
    }
  }

  /** HypBankedRegs */
  datatype Banked = Banked(spUsr: Word, spSvc: Word, lrSvc: Word, spsrSvc: Word,
                           spIrq: Word, lrIrq: Word, spsrIrq: Word)

  /** The BCM timer: its interrupt disabled, or armed with a tick count. */
  datatype OneShot = Disarmed | Armed(ticks: nat)

  function HsrEc(hsr: Word): nat {
    And(Shr(hsr, 26), 0x3f)
  }

  function HsrIl(hsr: Word): nat {
    And(Shr(hsr, 25), 1)
  }

  function HsrIss(hsr: Word): nat {
    And(hsr, 0x01ff_ffff)
  }

  lemma Shl25(x: nat)
    ensures Shl(x, 25) == 0x200_0000 * x
  {
    hide Shl;
    ShlAdd(x, 12, 13);
    ShlAdd(x, 12, 1);
    ShlOne(x);
    Shl12(2 * x);
    Shl12(0x2000 * x);
  }

  lemma ShlOne(x: nat)
    ensures Shl(x, 1) == 2 * x
  {
    assert Shl(x, 0) == x;
  }

  lemma OnesOfSyndrome()
    ensures Ones(6) == 0x3f && Ones(25) == 0x1ff_ffff
  {
    ByteMasks();
    assert Ones(4) == 0xf;
    assert Ones(25) == 2 * Ones(24) + 1;
  }

  /** The syndrome's three fields, put together and taken apart. */
  lemma HsrFields(hsr: Word, ec: nat, il: nat, iss: nat)
    requires hsr == 0x400_0000 * ec + 0x200_0000 * il + iss && ec < 0x40 && il < 2 && iss < 0x200_0000
    ensures HsrEc(hsr) == ec && HsrIl(hsr) == il && HsrIss(hsr) == iss
  {
    hide And, Shr, Shl, Low, Ones;
    OnesOfSyndrome();
    var high := 2 * ec + il;
    Shl25(high);
    ShrOfSum(high, iss, 25);
    ShrAdd(hsr, 25, 1);
    ShrOne(high);
    AndOnes(Shr(hsr, 26), 6);
    LowFits(ec, 6);
    Masks();
    AndOnes(high, 1);
    Low1(high);
    AndOnes(hsr, 25);
    Split(hsr, 25);
  }

  /** So the syndrome's fields are digits of it. */
  lemma HsrDigits(hsr: Word)
    ensures HsrEc(hsr) == hsr / 0x400_0000 && HsrIl(hsr) == hsr / 0x200_0000 % 2 && HsrIss(hsr) == hsr % 0x200_0000
  {
    hide HsrEc, HsrIl, HsrIss;
    HsrFields(hsr, hsr / 0x400_0000, hsr / 0x200_0000 % 2, hsr % 0x200_0000);
  }

  /** The instruction after a trapped one lies 4 bytes on, or 2 if the syndrome's IL bit (bit 25) is clear, and
      moving there changes no other register. */
  lemma AdvancedIsNext(f: Frame)
    ensures f.Advanced() == f.(elr := (f.elr + if f.hsr / 0x200_0000 % 2 == 1 then 4 else 2) % 0x1_0000_0000)
  {
    hide HsrIl;
    HsrDigits(f.hsr);
  }

  lemma ShrOne(x: nat)
    ensures Shr(x, 1) == x / 2
  {
    assert Shr(x / 2, 0) == x / 2;
  }

  predicate Has(hcr: Word, bit: nat) {
    And(hcr, bit) != 0
  }

  /** hcr with one flag set or cleared. */
  function With(hcr: Word, bit: Word, on: bool): Word {
    WordIsOnes();
    OrFits(hcr, bit, 32);
    AndFits(hcr, 0xffff_ffff - bit);
    if on then Or(hcr, bit) else And(hcr, 0xffff_ffff - bit)
  }

  lemma FlagBit(bit: nat) returns (i: nat)
    requires bit in {HCR_VM, HCR_IMO, HCR_VI, HCR_TWI}
    ensures i < 32 && Shl(1, i) == bit
    ensures i == if bit == HCR_VM then 0 else if bit == HCR_IMO then 4 else if bit == HCR_VI then 7 else 13
  {
    assert Shl(1, 4) == 0x10;
    assert Shl(1, 7) == 0x80;
    assert Shl(1, 10) == 0x400;
    assert Shl(1, 13) == 0x2000;
    i := if bit == HCR_VM then 0 else if bit == HCR_IMO then 4 else if bit == HCR_VI then 7 else 13;
  }

  /** Stage 2, virtual interrupts, and the trapping of WFI and of interrupts are bits 0, 7, 13 and 4 of HCR. */
  lemma FlagsAreBits(hcr: Word)
    ensures (Has(hcr, HCR_VM) <==> BitAt(hcr, 0)) && (Has(hcr, HCR_VI) <==> BitAt(hcr, 7))
    ensures (Has(hcr, HCR_TWI) <==> BitAt(hcr, 13)) && (Has(hcr, HCR_IMO) <==> BitAt(hcr, 4))
  {
    hide And, Shl, BitAt;
    forall bit | bit in {HCR_VM, HCR_IMO, HCR_VI, HCR_TWI}
      ensures Has(hcr, bit) <==>
              BitAt(hcr, if bit == HCR_VM then 0 else if bit == HCR_IMO then 4 else if bit == HCR_VI then 7 else 13)
    {
      var i := FlagBit(bit);
      AndBit(hcr, i);
    }
  }

  /** The flags the hypervisor switches do not disturb each other. */
  lemma FlagsIndependent(hcr: Word, bit: Word, on: bool, other: Word)
    requires bit in {HCR_VM, HCR_IMO, HCR_VI, HCR_TWI} && other in {HCR_VM, HCR_IMO, HCR_VI, HCR_TWI}
    ensures Has(With(hcr, bit, on), other) <==> if other == bit then on else Has(hcr, other)
  {
    hide And, With, Shl, BitAt;
    var i := FlagBit(bit);
    var j := FlagBit(other);
    AndBit(With(hcr, bit, on), j);
    AndBit(hcr, j);
    BitOfWith(hcr, i, bit, on, j);
  }

  lemma BitOfWith(hcr: Word, i: nat, bit: Word, on: bool, j: nat)
    requires i < 32 && bit == Shl(1, i)
    ensures BitAt(With(hcr, bit, on), j) <==> if i == j then on else BitAt(hcr, j)
  {
    hide And, Or, Shl, BitAt;
    WordIsOnes();
    if on {
      OrBit(hcr, i, j);
    } else {
      AndNotBit(hcr, i, j, 32);
    }
  }

  /** The live registers as a value. */
  datatype CpuVal = CpuVal(frame: Frame, banked: Banked, vbar: Word, hcr: Word, vttbr: nat, vtcr: nat, oneShot: OneShot)

  class Cpu {
    var hcr: Word
    var vtcr: nat
    var vttbr: nat
    var vbar: Word
    var banked: Banked
    var frame: Frame  // the exception frame on the hypervisor stack
    var oneShot: OneShot
    ghost var log: seq<Op>  // table stores, TLB maintenance and MMU register writes, in order

    function Value(): CpuVal
      reads this
    {
      CpuVal(frame, banked, vbar, hcr, vttbr, vtcr, oneShot)
    }

    method SetHcrBit(bit: Word)
      modifies this`hcr, this`log
      ensures hcr == With(old(hcr), bit, true) && log == old(log) + [SetHcr(bit)]
    {
      hcr := With(hcr, bit, true);
      log := log + [SetHcr(bit)];
    }

    method ClearHcrBit(bit: Word)
      modifies this`hcr, this`log
      ensures hcr == With(old(hcr), bit, false) && log == old(log) + [ClearHcr(bit)]
    {
      hcr := With(hcr, bit, false);
      log := log + [ClearHcr(bit)];
    }

    method SetVttbr(value: nat)
      modifies this`vttbr, this`log
      ensures vttbr == value && log == old(log) + [WriteVttbr(value)]
    {
      vttbr := value;
      log := log + [WriteVttbr(value)];
    }

    method InvalidateAll()
      modifies this`log
      ensures log == old(log) + [TlbiAll]
    {
      log := log + [TlbiAll];
    }

    method InvalidateIpa(ipa: nat)
      modifies this`log
      ensures log == old(log) + [TlbiIpa(ipa / 0x1000)]
    {
      log := log + [TlbiIpa(ipa / 0x1000)];
    }
  }
}
